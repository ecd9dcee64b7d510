/**
 * The job commands as sequences of reads and commits with other clients active in between
 * (src/modules/jobs/app/commands/transition-job.ts, submit-workflow-job.ts, expire-stale-jobs.ts).
 */
module JobCommands {
  import opened Prelude
  import opened Ids
  import opened J = Jobs
  import opened JobStore
  import opened JobRuns

  /** One wait of a command: the commits other clients make meanwhile, and whether the dependency then answers. */
  datatype Turn = Turn(others: seq<Attempt>, answered: bool)

  datatype CommandFailure =
    | InvalidOperation | Forbidden | NoSuchJob | Unavailable | NoId
    | Domain(reason: J.Failure)
    | Refused(refusal: StoreFailure)

  datatype Submission = Submission(jobId: ID, status: Status, created: bool)

  const JOB_TIMED_OUT := "job.timed_out"

  function Play(run: Run, attempts: seq<Attempt>): (played: Run)
    requires run.states != []
    ensures played.states != []
    decreases |attempts|
  {
    if attempts == [] then run else Play(run.Then(attempts[0]), attempts[1..])
  }

  /** What the first n waits add when nobody else writes. */
  function Waited(run: Run, turns: seq<Turn>, n: nat): (waited: Run)
    requires run.states != [] && n <= |turns|
    ensures waited.states != []
  {
    if n == 0 then run else Play(Waited(run, turns, n - 1), turns[n - 1].others)
  }

  lemma {:induction false} WaitedSplits(run: Run, turns: seq<Turn>, n: nat)
    requires run.states != [] && n < |turns|
    ensures Waited(run, turns, 1 + n) == Waited(Waited(run, turns, 1), turns[1..], n)
  {
    if n != 0 {
      WaitedSplits(run, turns, n - 1);
      assert turns[1..][n - 1] == turns[n];
    }
  }

  lemma {:induction false} PlayFits(run: Run, attempts: seq<Attempt>)
    requires Fits(run)
    ensures Fits(Play(run, attempts)) && run.states <= Play(run, attempts).states
    decreases |attempts|
  {
    if attempts != [] {
      ThenFits(run, attempts[0]);
      PlayFits(run.Then(attempts[0]), attempts[1..]);
    }
  }

  /** What committing the transition of a job read at an earlier moment does to the run. */
  ghost predicate CommitOutcome(was: Run, readAt: nat, jobId: ID, action: Action, at: Date,
                                published: bool, r: Result<(), StoreFailure>, now: Run)
    requires was.states != [] && readAt < |was.states| && jobId in was.states[readAt]
    requires Transition(was.states[readAt][jobId], action, at).Ok?
  {
    && now.states != []
    && jobId in was.Now()
    && (r == Err(StaleWrite) <==> was.Now()[jobId] != was.states[readAt][jobId])
    && (r.Err? ==> now == was && r.error in {StaleWrite, PublishFailed})
    && (r.Ok? <==> was.Now()[jobId] == was.states[readAt][jobId] && published)
    && (r.Ok? ==>
          && now == was.Then(Transitioned(readAt, jobId, action, at))
          && now.Now() == was.Now()[jobId := Transition(was.states[readAt][jobId], action, at).value.Saved()])
  }

  lemma CommitDecides(was: Run, readAt: nat, jobId: ID, action: Action, at: Date)
    requires Fits(was) && readAt < |was.states| && jobId in was.states[readAt]
    requires Transition(was.states[readAt][jobId], action, at).Ok?
    ensures
      var own := Transitioned(readAt, jobId, action, at);
      var changed := Transition(was.states[readAt][jobId], action, at).value;
      var checked := Check(was.Now(), UpdateMode, changed);
      && jobId in was.Now()
      && Intent(was.states, own) == Some((UpdateMode, changed))
      && checked == (if was.Now()[jobId] == was.states[readAt][jobId] then Ok(was.Now()[jobId := changed.Saved()]) else Err(StaleWrite))
  {
    var own := Transitioned(readAt, jobId, action, at);
    RunSound(was);
    assert SeenBy(was.states, own) == was.states[readAt];
    AcceptedIffUnchanged(was.states, own);
    var changed := Transition(was.states[readAt][jobId], action, at).value;
    TransitionLegal(was.states[readAt][jobId], action, at);
    assert changed.Identity() == was.states[readAt][jobId].Identity();
  }

  ghost predicate Found(read: Run, organizationId: ID, jobId: ID)
    requires read.states != []
  {
    jobId in read.Now() && read.Now()[jobId].organizationId == organizationId
  }

  /** When a transition goes through: the job read takes it, an event ID is there, nobody changed the job before the commit,
      and everything answers. */
  ghost predicate Goes(read: Run, organizationId: ID, jobId: ID, action: Action, at: Date, eventId: bool, turns: (Turn, Turn),
                       published: bool)
    requires read.states != []
  {
    && turns.0.answered && turns.1.answered && published && eventId
    && Found(read, organizationId, jobId) && Transition(read.Now()[jobId], action, at).Ok?
    && jobId in Play(read, turns.1.others).Now() && Play(read, turns.1.others).Now()[jobId] == read.Now()[jobId]
  }

  /** Why a transition does not go through: its causes exclude each other, the earlier ones being named first. */
  ghost predicate Fails(read: Run, organizationId: ID, jobId: ID, action: Action, at: Date, eventId: bool, turns: (Turn, Turn),
                        published: bool, error: CommandFailure)
    requires read.states != []
  {
    if error.Unavailable? then !turns.0.answered
    else
      && turns.0.answered
      && if error.NoSuchJob? then !Found(read, organizationId, jobId)
         else
           && Found(read, organizationId, jobId)
           && if error.Domain? then Transition(read.Now()[jobId], action, at) == Err(error.reason)
              else
                && Transition(read.Now()[jobId], action, at).Ok?
                && if error.NoId? then !eventId
                   else
                     var now := Play(read, turns.1.others).Now();
                     && eventId
                     && if jobId !in now || now[jobId] != read.Now()[jobId] then error == Refused(StaleWrite)
                        else error == Refused(PublishFailed) && !(turns.1.answered && published)
  }

  /** One more commit, which took the job as it was stored then through the transition. */
  ghost predicate Applied(was: Run, organizationId: ID, jobId: ID, action: Action, at: Date, job: Job, now: Run)
    requires was.states != []
  {
    && jobId in was.Now() && was.Now()[jobId].organizationId == organizationId
    && Transition(was.Now()[jobId], action, at) == Ok(job)
    && now.states == was.states + [was.Now()[jobId := job.Saved()]]
  }

  /** At this point of the run the returned job is stored, open for the subject, and queued or running. */
  ghost predicate Linearized(run: Run, point: nat, r: Submission, organizationId: ID, kind: string, subject: Subject) {
    && point < |run.states|
    && r.jobId in run.states[point]
    && Matches(run.states[point][r.jobId], organizationId, kind, subject)
    && r.status == run.states[point][r.jobId].status
    && (r.status.Queued? || r.status.Running?)
  }

  /** One more commit, which queued the failed job again. */
  ghost predicate Retried(was: Run, jobId: ID, at: Date, now: Run)
    requires was.states != []
  {
    && jobId in was.Now() && Retry(was.Now()[jobId], at).Ok?
    && now.states == was.states + [was.Now()[jobId := Retry(was.Now()[jobId], at).value.Saved()]]
  }

  /** What a submission asks for beside the subject. */
  datatype Order = Order(maxAttempts: Option<int>, newId: Option<ID>, createdAt: Date, retryAt: Date)

  /** One more commit, which created the job as ordered for a subject that had none open. */
  ghost predicate CreatedAt(was: Run, jobId: ID, organizationId: ID, kind: string, subject: Subject, order: Order, now: Run)
    requires was.states != []
  {
    && order.newId == Some(jobId) && jobId !in was.Now() && !Taken(was.Now(), organizationId, kind, subject)
    && Create(jobId, organizationId, kind, Some(subject), order.maxAttempts, order.createdAt).Ok?
    && now.states == was.states
         + [was.Now()[jobId := Create(jobId, organizationId, kind, Some(subject), order.maxAttempts, order.createdAt).value.Saved()]]
  }

  /** What a submission itself adds to the run of the others: a new job, a retry, or nothing. */
  ghost predicate Settled(was: Run, organizationId: ID, kind: string, subject: Subject, order: Order,
                          r: Result<Submission, CommandFailure>, now: Run)
    requires was.states != []
  {
    if r.Err? then now == was
    else if r.value.created then CreatedAt(was, r.value.jobId, organizationId, kind, subject, order, now)
    else now == was || Retried(was, r.value.jobId, order.retryAt, now)
  }

  /** When a retry goes through: the job can be retried, an event ID is there, nobody changed it meanwhile, and the writer
      answers. */
  ghost predicate Retries(was: Run, jobId: ID, retryAt: Date, eventId: bool, turn: Turn)
    requires was.states != [] && jobId in was.Now()
  {
    && Retry(was.Now()[jobId], retryAt).Ok? && eventId && turn.answered
    && jobId in Play(was, turn.others).Now() && Play(was, turn.others).Now()[jobId] == was.Now()[jobId]
  }

  /** When a creation goes through: the order is well-formed, the ID new, the subject free, and the writer answers. */
  ghost predicate Creates(was: Run, organizationId: ID, kind: string, subject: Subject, order: Order, eventId: bool, turn: Turn)
    requires was.states != []
  {
    && order.newId.Some? && eventId && turn.answered
    && Create(order.newId.value, organizationId, kind, Some(subject), order.maxAttempts, order.createdAt).Ok?
    && order.newId.value !in Play(was, turn.others).Now() && !Taken(Play(was, turn.others).Now(), organizationId, kind, subject)
  }

  /** The creation is well-formed, but by the time the writer turns to it the subject has an open job. */
  ghost predicate Overtaken(was: Run, organizationId: ID, kind: string, subject: Subject, order: Order, eventId: bool, turn: Turn)
    requires was.states != []
  {
    && order.newId.Some? && eventId
    && Create(order.newId.value, organizationId, kind, Some(subject), order.maxAttempts, order.createdAt).Ok?
    && order.newId.value !in Play(was, turn.others).Now() && Taken(Play(was, turn.others).Now(), organizationId, kind, subject)
  }

  /** The subject's job as read serves a submission: it is queued or running, or a retry goes through. */
  ghost predicate Serves(read: Run, id: ID, organizationId: ID, kind: string, subject: Subject, order: Order, eventId: bool, turn: Turn)
    requires read.states != []
  {
    && id in read.Now() && Matches(read.Now()[id], organizationId, kind, subject)
    && (!read.Now()[id].status.Failed? || Retries(read, id, order.retryAt, eventId, turn))
  }

  /** The submission returns the subject's job as read, exactly if that job serves it. */
  ghost predicate Reused(read: Run, organizationId: ID, kind: string, subject: Subject, order: Order, eventId: bool, turn: Turn,
                         r: Result<Submission, CommandFailure>)
    requires read.states != []
  {
    && (r.Ok? ==> !r.value.created && Serves(read, r.value.jobId, organizationId, kind, subject, order, eventId, turn))
    && (forall id | Serves(read, id, organizationId, kind, subject, order, eventId, turn) :: r.Ok? && r.value.jobId == id)
  }

  /** What the loser of a race answers with: an error if the second read fails or finds the subject free again, and otherwise
      the winner's job, exactly if that job serves it. */
  ghost predicate Yields(was: Run, organizationId: ID, kind: string, subject: Subject, order: Order, eventId: bool,
                         turns: (Turn, Turn), refusal: CommandFailure, r: Result<Submission, CommandFailure>)
    requires was.states != []
  {
    var read := Play(was, turns.0.others);
    if !turns.0.answered then r == Err(Unavailable)
    else if !Taken(read.Now(), organizationId, kind, subject) then r == Err(refusal)
    else Reused(read, organizationId, kind, subject, order, eventId, turns.1, r)
  }

  /** Between these two states of the run, the job as it was listed was failed for running too long. */
  ghost predicate ExpiredAt(run: Run, k: nat, job: Job, at: Date) {
    && k + 1 < |run.states|
    && job.id in run.states[k] && run.states[k][job.id] == job
    && Fail(job, at, "job.timed_out").Ok?
    && run.states[k + 1] == run.states[k][job.id := Fail(job, at, "job.timed_out").value.Saved()]
  }

  /** The job could not be failed at this time, or somebody else changed it since it was listed. */
  ghost predicate Skipped(run: Run, job: Job, at: Date)
    requires run.states != []
  {
    Fail(job, at, "job.timed_out").Err? || (job.id in run.Now() && run.Now()[job.id].version > job.version)
  }

  ghost predicate Listed(run: Run, readAt: nat, job: Job) {
    readAt < |run.states| && job.id in run.states[readAt] && run.states[readAt][job.id] == job
  }

  lemma SkippedStays(was: Run, readAt: nat, job: Job, at: Date, now: Run)
    requires Fits(was) && Fits(now) && was.states <= now.states && Listed(was, readAt, job) && Skipped(was, job, at)
    ensures Skipped(now, job, at)
  {
    if Fail(job, at, "job.timed_out").Ok? {
      RunSound(now);
      assert now.states[|was.states| - 1] == was.Now();
      assert Grown(now.states[|was.states| - 1], now.Now());
    }
  }

  /** What a sweep did to one job stays true while others go on. */
  ghost predicate DealtWith(run: Run, readAt: nat, job: Job, at: Date, expired: bool)
    requires run.states != []
  {
    if expired then exists k :: readAt <= k && ExpiredAt(run, k, job, at) else Skipped(run, job, at)
  }

  /** The first listed jobs are dealt with: each one failed by the sweep, or skipped. */
  ghost predicate Swept(run: Run, readAt: nat, jobs: seq<Job>, at: Date, expired: seq<bool>)
    requires run.states != []
  {
    && |expired| <= |jobs|
    && (forall j | 0 <= j < |expired| :: DealtWith(run, readAt, jobs[j], at, expired[j]))
  }

  /** What one round answers: a job that cannot be failed at this time, or changed since it was listed, is left alone; a
      missing ID or a refused publication is an error; any other job is failed. */
  ghost predicate Expires(was: Run, job: Job, at: Date, eventId: bool, turn: Turn, r: Result<bool, CommandFailure>)
    requires was.states != []
  {
    var now := Play(was, turn.others).Now();
    if Fail(job, at, "job.timed_out").Err? then r == Ok(false)
    else if !eventId then r == Err(NoId)
    else if job.id !in now || now[job.id] != job then r == Ok(false)
    else if !turn.answered then r == Err(Refused(PublishFailed))
    else r == Ok(true)
  }

  ghost predicate AllListed(run: Run, readAt: nat, jobs: seq<Job>) {
    && (forall i | 0 <= i < |jobs| :: Listed(run, readAt, jobs[i]))
    && (forall i, j | 0 <= i < j < |jobs| :: jobs[i].id != jobs[j].id)
  }

  function Count(flags: seq<bool>): nat {
    if flags == [] then 0 else Count(flags[..|flags| - 1]) + (if flags[|flags| - 1] then 1 else 0)
  }

  lemma CountMore(flags: seq<bool>, one: bool)
    ensures Count(flags + [one]) == Count(flags) + (if one then 1 else 0)
  {
    assert (flags + [one])[..|flags|] == flags;
  }

  lemma DealtWithStays(was: Run, readAt: nat, job: Job, at: Date, expired: bool, now: Run)
    requires Fits(was) && Fits(now) && was.states <= now.states && Listed(was, readAt, job)
    requires DealtWith(was, readAt, job, at, expired)
    ensures DealtWith(now, readAt, job, at, expired)
  {
    if expired {
      var k :| readAt <= k && ExpiredAt(was, k, job, at);
      assert now.states[k] == was.states[k] && now.states[k + 1] == was.states[k + 1];
      assert ExpiredAt(now, k, job, at);
    } else {
      SkippedStays(was, readAt, job, at, now);
    }
  }

  lemma SweptStays(was: Run, readAt: nat, jobs: seq<Job>, at: Date, expired: seq<bool>, now: Run)
    requires Fits(was) && Fits(now) && was.states <= now.states && AllListed(was, readAt, jobs)
    requires Swept(was, readAt, jobs, at, expired)
    ensures Swept(now, readAt, jobs, at, expired)
  {
    forall j | 0 <= j < |expired| ensures DealtWith(now, readAt, jobs[j], at, expired[j]) {
      DealtWithStays(was, readAt, jobs[j], at, expired[j], now);
    }
  }

  lemma SweptMore(run: Run, readAt: nat, jobs: seq<Job>, at: Date, expired: seq<bool>, one: bool)
    requires run.states != [] && |expired| < |jobs| && Swept(run, readAt, jobs, at, expired)
    requires DealtWith(run, readAt, jobs[|expired|], at, one)
    ensures Swept(run, readAt, jobs, at, expired + [one])
  {
    var more := expired + [one];
    forall j | 0 <= j < |more| ensures DealtWith(run, readAt, jobs[j], at, more[j]) {
      assert j < |expired| ==> more[j] == expired[j];
    }
  }

  lemma SweptNext(was: Run, readAt: nat, jobs: seq<Job>, at: Date, expired: seq<bool>, now: Run, one: bool)
    requires Fits(was) && Fits(now) && was.states <= now.states && AllListed(was, readAt, jobs) && |expired| < |jobs|
    requires Swept(was, readAt, jobs, at, expired)
    requires DealtWith(now, readAt, jobs[|expired|], at, one)
    ensures Swept(now, readAt, jobs, at, expired + [one])
    ensures Count(expired + [one]) == Count(expired) + (if one then 1 else 0)
  {
    CountMore(expired, one);
    SweptStays(was, readAt, jobs, at, expired, now);
    SweptMore(now, readAt, jobs, at, expired, one);
  }

  class Board {
    const store: Store
    const writer: Writer
    var run: Run

    ghost predicate Valid()
      reads this, store
    {
      Fits(run) && writer.store == store && store.Valid() && store.jobs == run.Now()
    }

    constructor ()
      ensures Valid() && fresh(store) && run == Run([map[]], [])
    {
      var s := new Store();
      store := s;
      writer := new Writer(s);
      run := Run([map[]], []);
    }

    /** Hand a prepared change to the writer; an accepted and published one becomes the next state of the run. */
    method Commit(attempt: Attempt, published: bool) returns (r: Result<(), StoreFailure>)
      requires Valid() && Intent(run.states, attempt).Some?
      modifies this, store
      ensures Valid()
      ensures
        var intent := Intent(old(run.states), attempt).value;
        var checked := Check(old(run.Now()), intent.0, intent.1);
        if checked.Err? then r == Err(checked.error) && run == old(run)
        else if !published then r == Err(PublishFailed) && run == old(run)
        else r == Ok(()) && run == old(run).Then(attempt)
    {
      var intent := Intent(run.states, attempt).value;
      r := writer.Commit(intent.0, intent.1, true, published);
      if r.Ok? {
        ThenFits(run, attempt);
        run := run.Then(attempt);
      }
    }

    /** Another client's whole commit attempt. */
    method Perform(attempt: Attempt)
      requires Valid()
      modifies this, store
      ensures Valid() && run == old(run).Then(attempt)
    {
      ThenFits(run, attempt);
      var intent := Intent(run.states, attempt);
      if intent.Some? {
        var _ := writer.Commit(intent.value.0, intent.value.1, true, true);
      }
      run := run.Then(attempt);
    }

    method Wait(turn: Turn)
      requires Valid()
      modifies this, store
      ensures Valid() && run == Play(old(run), turn.others)
      ensures old(run.states) <= run.states
    {
      PlayFits(run, turn.others);
      for i := 0 to |turn.others|
        invariant Valid()
        invariant Play(run, turn.others[i..]) == Play(old(run), turn.others)
      {
        Perform(turn.others[i]);
        assert turn.others[i..][1..] == turn.others[i + 1..];
      }
    }

    /** Commit the transition of a job as it was read at an earlier moment. */
    method CommitTransition(readAt: nat, jobId: ID, action: Action, at: Date, published: bool)
      returns (r: Result<(), StoreFailure>)
      requires Valid() && readAt < |run.states| && jobId in run.states[readAt]
      requires Transition(run.states[readAt][jobId], action, at).Ok?
      modifies this, store
      ensures Valid()
      ensures CommitOutcome(old(run), readAt, jobId, action, at, published, r, run)
    {
      var own := Transitioned(readAt, jobId, action, at);
      ghost var before := run;
      CommitDecides(before, readAt, jobId, action, at);
      r := Commit(own, published);
    }

    /** Read the job, transition it, commit it. */
    method TransitionStored(organizationId: ID, jobId: ID, action: Action, at: Date, eventId: bool, turns: (Turn, Turn), published: bool)
      returns (r: Result<Job, CommandFailure>)
      requires Valid()
      modifies this, store
      ensures Valid() && old(run.states) <= run.states
      ensures r.Ok? ==> Applied(Waited(old(run), [turns.0, turns.1], 2), organizationId, jobId, action, at, r.value, run)
      ensures r.Err? ==> exists n | 1 <= n <= 2 :: run == Waited(old(run), [turns.0, turns.1], n)
      ensures r != Err(InvalidOperation) && r != Err(Forbidden)
      ensures r == Err(NoSuchJob) <==> turns.0.answered && !Found(Play(old(run), turns.0.others), organizationId, jobId)
      ensures r.Ok? <==> Goes(Play(old(run), turns.0.others), organizationId, jobId, action, at, eventId, turns, published)
      ensures r.Err? ==> Fails(Play(old(run), turns.0.others), organizationId, jobId, action, at, eventId, turns, published, r.error)
    {
      ghost var start := run;
      ghost var all := [turns.0, turns.1];
      Wait(turns.0);
      assert run == Waited(start, all, 1);
      if !turns.0.answered {
        return Err(Unavailable);
      }
      if jobId !in store.jobs || store.jobs[jobId].organizationId != organizationId {
        return Err(NoSuchJob);
      }
      var readAt := |run.states| - 1;
      var changed := Transition(store.jobs[jobId], action, at);
      if changed.Err? {
        return Err(Domain(changed.error));
      }
      if !eventId {
        return Err(NoId);
      }
      Wait(turns.1);
      assert run == Waited(start, all, 2);
      var committed := CommitTransition(readAt, jobId, action, at, turns.1.answered && published);
      if committed.Err? {
        return Err(Refused(committed.error));
      }
      r := Ok(changed.value);
    }

    /** Read, transition, commit: on success the change was applied to the job stored at the commit; on failure this
        command wrote nothing. It succeeds exactly for an allowed caller, a job that is there and takes the transition,
        and if nobody changed that job before the commit. */
    method TransitionJob(organizationId: ID, jobId: ID, action: Action, at: Date, operation: bool, allowed: Option<bool>,
                         eventId: bool, turns: (Turn, Turn), published: bool)
      returns (r: Result<Job, CommandFailure>)
      requires Valid()
      modifies this, store
      ensures Valid() && old(run.states) <= run.states
      ensures r.Ok? ==> Applied(Waited(old(run), [turns.0, turns.1], 2), organizationId, jobId, action, at, r.value, run)
      ensures r.Err? ==> exists n | 0 <= n <= 2 :: run == Waited(old(run), [turns.0, turns.1], n)
      ensures r == Err(InvalidOperation) <==> !operation
      ensures r == Err(Forbidden) <==> operation && allowed == Some(false)
      ensures r == Err(NoSuchJob) <==> && operation && allowed == Some(true) && turns.0.answered
                                       && !Found(Play(old(run), turns.0.others), organizationId, jobId)
      ensures r.Ok? <==> && operation && allowed == Some(true)
                         && Goes(Play(old(run), turns.0.others), organizationId, jobId, action, at, eventId, turns, published)
      ensures r.Err? && operation && allowed == Some(true) ==>
                Fails(Play(old(run), turns.0.others), organizationId, jobId, action, at, eventId, turns, published, r.error)
      ensures r == Err(Unavailable) <==> operation && (allowed == None || (allowed == Some(true) && !turns.0.answered))
    {
      assert Waited(run, [turns.0, turns.1], 0) == run;
      if !operation {
        return Err(InvalidOperation);
      }
      if allowed.None? {
        return Err(Unavailable);
      }
      if !allowed.value {
        return Err(Forbidden);
      }
      r := TransitionStored(organizationId, jobId, action, at, eventId, turns, published);
    }

    /** Return an open job just read as it is, or queue a failed one for another attempt. */
    method Reuse(jobId: ID, organizationId: ID, kind: string, subject: Subject, order: Order, eventId: bool, turn: Turn)
      returns (r: Result<Submission, CommandFailure>, ghost point: nat)
      requires Valid() && jobId in run.Now() && Matches(run.Now()[jobId], organizationId, kind, subject)
      modifies this, store
      ensures Valid() && old(run.states) <= run.states
      ensures r.Ok? ==> !r.value.created && r.value.jobId == jobId
      ensures r.Ok? ==> old(|run.states|) - 1 <= point && Linearized(run, point, r.value, organizationId, kind, subject)
      ensures r.Ok? <==> !old(run.Now())[jobId].status.Failed? || Retries(old(run), jobId, order.retryAt, eventId, turn)
      ensures || Settled(old(run), organizationId, kind, subject, order, r, run)
              || Settled(Play(old(run), turn.others), organizationId, kind, subject, order, r, run)
    {
      var job := store.jobs[jobId];
      point := |run.states| - 1;
      if !job.status.Failed? {
        return Ok(Submission(jobId, job.status, false)), point;
      }
      var retried := Retry(job, order.retryAt);
      if retried.Err? {
        return Err(Domain(retried.error)), point;
      }
      if !eventId {
        return Err(NoId), point;
      }
      var readAt := |run.states| - 1;
      Wait(turn);
      ghost var before := run;
      var committed := CommitTransition(readAt, jobId, DoRetry, order.retryAt, turn.answered);
      if committed.Err? {
        return Err(Refused(committed.error)), point;
      }
      point := |run.states| - 1;
      r := Ok(Submission(jobId, retried.value.status, false));
    }

    method CreateNew(organizationId: ID, kind: string, subject: Subject, order: Order, eventId: bool, turn: Turn)
      returns (r: Result<Submission, CommandFailure>)
      requires Valid() && IsId(subject.id)
      modifies this, store
      ensures Valid() && old(run.states) <= run.states
      ensures r.Ok? ==> r.value.created && Linearized(run, |run.states| - 1, r.value, organizationId, kind, subject)
      ensures || Settled(old(run), organizationId, kind, subject, order, r, run)
              || Settled(Play(old(run), turn.others), organizationId, kind, subject, order, r, run)
      ensures r == Err(Refused(SubjectTaken)) ==> run == Play(old(run), turn.others)
      ensures r.Ok? <==> Creates(old(run), organizationId, kind, subject, order, eventId, turn)
      ensures r == Err(Refused(SubjectTaken)) <==> Overtaken(old(run), organizationId, kind, subject, order, eventId, turn)
    {
      if order.newId.None? {
        return Err(NoId);
      }
      var newId := order.newId.value;
      var job := Create(newId, organizationId, kind, Some(subject), order.maxAttempts, order.createdAt);
      if job.Err? {
        return Err(Domain(job.error));
      }
      if !eventId {
        return Err(NoId);
      }
      Wait(turn);
      ghost var before := run;
      var committed := Commit(Submitted(newId, organizationId, kind, Some(subject), order.maxAttempts, order.createdAt), turn.answered);
      if committed.Err? {
        return Err(Refused(committed.error));
      }
      assert run.Now() == before.Now()[newId := job.value.Saved()];
      r := Ok(Submission(newId, job.value.status, true));
    }

    /** A concurrent submission for the subject committed first: use its job. */
    method UseWinner(organizationId: ID, kind: string, subject: Subject, refusal: CommandFailure, order: Order,
                     eventId: bool, turns: (Turn, Turn))
      returns (r: Result<Submission, CommandFailure>, ghost point: nat, ghost waits: nat)
      requires Valid()
      modifies this, store
      ensures Valid() && old(run.states) <= run.states
      ensures r.Ok? ==> !r.value.created && old(|run.states|) - 1 <= point && Linearized(run, point, r.value, organizationId, kind, subject)
      ensures 1 <= waits <= 2
      ensures Settled(if waits == 1 then Play(old(run), turns.0.others) else Play(Play(old(run), turns.0.others), turns.1.others),
                      organizationId, kind, subject, order, r, run)
      ensures Yields(old(run), organizationId, kind, subject, order, eventId, turns, refusal, r)
    {
      Wait(turns.0);
      ghost var before := run;
      waits, point := 1, 0;
      if !turns.0.answered {
        return Err(Unavailable), point, waits;
      }
      var winner := Find(organizationId, kind, subject);
      if winner.None? {
        return Err(refusal), point, waits;
      }
      r, point := Reuse(winner.value, organizationId, kind, subject, order, eventId, turns.1);
      waits := if Settled(before, organizationId, kind, subject, order, r, run) then 1 else 2;
    }

    /** The part of a submission after its first read found `existing`. */
    method Ensure(organizationId: ID, kind: string, subject: Subject, order: Order, existing: Option<ID>, eventId: bool,
                  turns: seq<Turn>)
      returns (r: Result<Submission, CommandFailure>, ghost point: nat, ghost waits: nat)
      requires Valid() && |turns| == 3 && IsId(subject.id)
      requires existing.Some? ==>
                 existing.value in run.Now() && Matches(run.Now()[existing.value], organizationId, kind, subject)
      modifies this, store
      ensures Valid() && old(run.states) <= run.states
      ensures r.Ok? ==> old(|run.states|) - 1 <= point && Linearized(run, point, r.value, organizationId, kind, subject)
      ensures r.Ok? && r.value.created ==> point == |run.states| - 1
      ensures waits <= 3 && Settled(Waited(old(run), turns, waits), organizationId, kind, subject, order, r, run)
      ensures existing.Some? ==>
                && (r.Ok? ==> !r.value.created && r.value.jobId == existing.value)
                && (r.Ok? <==> Serves(old(run), existing.value, organizationId, kind, subject, order, eventId, turns[0]))
      ensures existing.None? && !Overtaken(old(run), organizationId, kind, subject, order, eventId, turns[0]) ==>
                && (r.Ok? ==> r.value.created)
                && (r.Ok? <==> Creates(old(run), organizationId, kind, subject, order, eventId, turns[0]))
      ensures existing.None? && Overtaken(old(run), organizationId, kind, subject, order, eventId, turns[0]) ==>
                Yields(Play(old(run), turns[0].others), organizationId, kind, subject, order, eventId, (turns[1], turns[2]),
                       Refused(SubjectTaken), r)
    {
      ghost var first, second := run, Play(run, turns[0].others);
      assert first == Waited(first, turns, 0) && second == Waited(first, turns, 1);
      if existing.Some? {
        r, point := Reuse(existing.value, organizationId, kind, subject, order, eventId, turns[0]);
        waits := if Settled(first, organizationId, kind, subject, order, r, run) then 0 else 1;
      } else {
        r := CreateNew(organizationId, kind, subject, order, eventId, turns[0]);
        point := |run.states| - 1;
        if r == Err(Refused(SubjectTaken)) {
          r, point, waits := UseWinner(organizationId, kind, subject, r.error, order, eventId, (turns[1], turns[2]));
          assert Play(second, turns[1].others) == Waited(first, turns, 2);
          assert Play(Play(second, turns[1].others), turns[2].others) == Waited(first, turns, 3);
          waits := 1 + waits;
        } else {
          waits := if Settled(first, organizationId, kind, subject, order, r, run) then 0 else 1;
        }
      }
    }

    /** Ensure that the subject has an open job: whatever job is returned was, at `point` of the run, the stored open
        job of the subject, queued or running; it is called created exactly when this command created it. */
    method SubmitWorkflowJob(organizationId: ID, kind: string, subject: Subject, order: Order, operation: bool, eventId: bool,
                             turns: seq<Turn>)
      returns (r: Result<Submission, CommandFailure>, ghost point: nat, ghost waits: nat)
      requires Valid() && |turns| == 4 && IsId(subject.id)
      modifies this, store
      ensures Valid() && old(run.states) <= run.states
      ensures r.Ok? ==> old(|run.states|) - 1 <= point && Linearized(run, point, r.value, organizationId, kind, subject)
      ensures r.Ok? && r.value.created ==> point == |run.states| - 1
      ensures waits <= 4 && Settled(Waited(old(run), turns, waits), organizationId, kind, subject, order, r, run)
      ensures !operation ==> r == Err(InvalidOperation)
      ensures operation && !turns[0].answered ==> r == Err(Unavailable)
      ensures
        var read := Play(old(run), turns[0].others);
        operation && turns[0].answered ==>
          && (!Taken(read.Now(), organizationId, kind, subject)
              && !Overtaken(read, organizationId, kind, subject, order, eventId, turns[1])
              ==> (r.Ok? ==> r.value.created)
                  && (r.Ok? <==> Creates(read, organizationId, kind, subject, order, eventId, turns[1])))
          && (!Taken(read.Now(), organizationId, kind, subject)
              && Overtaken(read, organizationId, kind, subject, order, eventId, turns[1])
              ==> Yields(Play(read, turns[1].others), organizationId, kind, subject, order, eventId, (turns[2], turns[3]),
                         Refused(SubjectTaken), r))
          && (Taken(read.Now(), organizationId, kind, subject)
              ==> Reused(read, organizationId, kind, subject, order, eventId, turns[1], r))
    {
      ghost var start := run;
      if !operation {
        return Err(InvalidOperation), 0, 0;
      }
      Wait(turns[0]);
      ghost var first := run;
      assert first == Waited(start, turns, 1);
      if turns[0].answered {
        var existing := Find(organizationId, kind, subject);
        r, point, waits := Ensure(organizationId, kind, subject, order, existing, eventId, turns[1..]);
        WaitedSplits(start, turns, waits);
        waits := 1 + waits;
      } else {
        r, point, waits := Err(Unavailable), 0, 1;
      }
    }

    method Find(organizationId: ID, kind: string, subject: Subject) returns (found: Option<ID>)
      requires Valid()
      ensures found.None? <==> !Taken(run.Now(), organizationId, kind, subject)
      ensures found.Some? ==> found.value in run.Now() && Matches(run.Now()[found.value], organizationId, kind, subject)
      ensures forall id | id in run.Now() && Matches(run.Now()[id], organizationId, kind, subject) :: found == Some(id)
    {
      RunSound(run);
      assert StateOk(run.Now());
      var job := store.OpenJobBySubject(organizationId, kind, subject);
      found := if job.Some? then Some(job.value.id) else None;
      forall id | id in run.Now() && Matches(run.Now()[id], organizationId, kind, subject) ensures found == Some(id) {
        OneOpenJob(run, |run.states| - 1, id, found.value, organizationId, kind, subject);
      }
    }

    /** One round of the sweep: true when the job was failed by this command, false when it is left alone. */
    method ExpireOne(readAt: nat, job: Job, at: Date, eventId: bool, turn: Turn) returns (r: Result<bool, CommandFailure>)
      requires Valid() && Listed(run, readAt, job)
      modifies this, store
      ensures Valid() && old(run.states) <= run.states
      ensures r == Ok(true) ==>
                exists k | old(|run.states|) - 1 <= k < |run.states| :: ExpiredAt(run, k, job, at)
      ensures r == Ok(true) ==> Run(run.states[..|run.states| - 1], run.attempts[..|run.attempts| - 1]) == Play(old(run), turn.others)
      ensures r == Ok(false) ==> Skipped(run, job, at)
      ensures r != Ok(true) ==> run == old(run) || run == Play(old(run), turn.others)
      ensures Expires(old(run), job, at, eventId, turn, r)
    {
      if Fail(job, at, "job.timed_out").Err? {
        return Ok(false);
      }
      if !eventId {
        return Err(NoId);
      }
      Wait(turn);
      ghost var before := run;
      var committed := CommitTransition(readAt, job.id, DoFail(JOB_TIMED_OUT), at, turn.answered);
      if committed.Ok? {
        assert ExpiredAt(run, |before.states| - 1, job, at);
        assert Run(run.states[..|run.states| - 1], run.attempts[..|run.attempts| - 1]) == before;
        return Ok(true);
      }
      if committed.error.StaleWrite? {
        RunSound(run);
        assert Grown(run.states[readAt], run.Now());
        return Ok(false);
      }
      r := Err(Refused(committed.error));
    }

    /** Fail the jobs that have been running too long: each listed job is either failed exactly as it was listed, or
        left alone because it changed meanwhile; only a missing ID or a refused publication stops the sweep. */
    method ExpireStaleJobs(now: int, runningTimeoutMs: int, limit: nat, eventIds: seq<bool>, turns: seq<Turn>)
      returns (r: Result<(nat, nat), CommandFailure>, ghost readAt: nat, ghost stale: seq<Job>, ghost done: seq<bool>)
      requires Valid() && |turns| == |eventIds| + 1 == limit + 1
      modifies this, store
      ensures Valid() && old(run.states) <= run.states
      ensures r.Err? ==> r.error in {Unavailable, NoId, Refused(PublishFailed)}
      ensures r == Err(Unavailable) <==> !turns[0].answered
      ensures r == Err(NoId) ==> exists i :: 0 <= i < limit && !eventIds[i]
      ensures r == Err(Refused(PublishFailed)) ==> exists i :: 0 < i <= limit && !turns[i].answered
      ensures r.Ok? ==>
                && r.value.0 + r.value.1 == |stale| == |done| && r.value.0 == Count(done)
                && readAt < |run.states| && run.states[readAt] == Play(old(run), turns[0].others).Now()
                && AllListed(run, readAt, stale)
                && (forall i | 0 <= i < |stale| :: RunningBefore(stale[i], now - runningTimeoutMs))
                && |stale| == Min(limit, |RunningIds(run.states[readAt], now - runningTimeoutMs)|)
                && Swept(run, readAt, stale, At(now), done)
    {
      Wait(turns[0]);
      readAt, stale, done := |run.states| - 1, [], [];
      if !turns[0].answered {
        return Err(Unavailable), readAt, stale, done;
      }
      var read := |run.states| - 1;
      var jobs := List(now - runningTimeoutMs, limit);
      ghost var listed := run.states[readAt];
      stale := jobs;
      var expired, skipped := 0, 0;
      for i := 0 to |jobs|
        invariant Valid() && old(run.states) <= run.states
        invariant readAt < |run.states| && run.states[readAt] == listed
        invariant expired + skipped == i == |done| && expired == Count(done)
        invariant AllListed(run, readAt, jobs)
        invariant Swept(run, readAt, jobs, At(now), done)
      {
        ghost var before := run;
        var one := ExpireOne(read, jobs[i], At(now), eventIds[i], turns[i + 1]);
        if one.Err? {
          return Err(one.error), readAt, stale, done;
        }
        SweptNext(before, readAt, jobs, At(now), done, run, one.value);
        done := done + [one.value];
        if one.value {
          expired := expired + 1;
        } else {
          skipped := skipped + 1;
        }
      }
      r := Ok((expired, skipped));
    }

    method List(startedBefore: int, limit: nat) returns (jobs: seq<Job>)
      requires Valid()
      ensures AllListed(run, |run.states| - 1, jobs)
      ensures forall i | 0 <= i < |jobs| :: RunningBefore(jobs[i], startedBefore)
      ensures forall i, j | 0 <= i < j < |jobs| :: StartedAt(jobs[i]) <= StartedAt(jobs[j])
      ensures |jobs| == Min(limit, |RunningIds(run.Now(), startedBefore)|)
    {
      RunSound(run);
      assert StateOk(run.Now());
      jobs := store.RunningStartedBefore(startedBefore, limit);
    }
  }

  /** Submissions of one subject that return at moments between which the first job stays open return the same job. */
  lemma SubmissionsConverge(run: Run, a: Submission, i: nat, b: Submission, k: nat, organizationId: ID, kind: string, subject: Subject)
    requires Fits(run) && i <= k
    requires Linearized(run, i, a, organizationId, kind, subject) && Linearized(run, k, b, organizationId, kind, subject)
    ensures a.jobId == b.jobId <==> (a.jobId in run.states[k] && run.states[k][a.jobId].Open())
  {
    RunSound(run);
    assert Grown(run.states[i], run.states[k]);
    assert StateOk(run.states[k]);
  }
}
