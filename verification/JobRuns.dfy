/**
 * Concurrent clients of the job store: each reads a job, computes a transition from what it read, and commits it
 * later, against whatever is stored by then
 * (src/modules/jobs/infra/in-memory/writer.ts, src/modules/jobs/app/commands/transition-job.ts).
 */
module JobRuns {
  import opened Prelude
  import opened Ids
  import opened J = Jobs
  import opened JobStore

  /** One published commit attempt; an update carries the moment its client read the job (a moment still to come
      means that it reads just before it writes). */
  datatype Attempt =
    | Submitted(id: ID, organizationId: ID, kind: string, subject: Option<Subject>, maxAttempts: Option<int>, at: Date)
    | Transitioned(readAt: nat, id: ID, action: Action, at: Date)

  /** Every state the store went through, and the attempt made in each of them. */
  datatype Run = Run(states: seq<State>, attempts: seq<Attempt>)
  {
    function Now(): State
      requires states != []
    {
      states[|states| - 1]
    }

    function Then(attempt: Attempt): Run
      requires states != []
    {
      Run(states + [After(states, attempt)], attempts + [attempt])
    }
  }

  /** The state the client of an update read. */
  function SeenBy(past: seq<State>, attempt: Attempt): State
    requires past != [] && attempt.Transitioned?
  {
    past[Min(attempt.readAt, |past| - 1)]
  }

  /** What the client hands to the writer, if its own checks let it get that far. */
  function Intent(past: seq<State>, attempt: Attempt): Option<(Mode, Job)>
    requires past != []
  {
    match attempt
    case Submitted(id, organizationId, kind, subject, maxAttempts, at) =>
      var job := Create(id, organizationId, kind, subject, maxAttempts, at);
      if job.Err? then None else Some((CreateMode, job.value))
    case Transitioned(readAt, id, action, at) =>
      var seen := SeenBy(past, attempt);
      if id !in seen || Transition(seen[id], action, at).Err? then None
      else Some((UpdateMode, Transition(seen[id], action, at).value))
  }

  /** What one attempt leaves in the store. */
  function After(past: seq<State>, attempt: Attempt): State
    requires past != []
  {
    var now, intent := past[|past| - 1], Intent(past, attempt);
    if intent.None? then now
    else
      var checked := Check(now, intent.value.0, intent.value.1);
      if checked.Ok? then checked.value else now
  }

  /** A run from the empty store in which every state is what the attempt before it left. */
  ghost predicate Fits(run: Run) {
    && |run.states| == |run.attempts| + 1
    && run.states[0] == map[]
    && (forall k | 0 <= k < |run.attempts| ::
          run.states[k + 1] == After(run.states[..k + 1], run.attempts[k]))
  }

  // ----- What every state of a run satisfies -----

  predicate SameSlot(a: Job, b: Job) {
    a.organizationId == b.organizationId && a.kind == b.kind && a.subject == b.subject
  }

  ghost predicate OneOpenPerSubject(jobs: State) {
    forall a, b | a in jobs && b in jobs && jobs[a].Open() && jobs[b].Open() && jobs[a].subject.Some?
                  && SameSlot(jobs[a], jobs[b]) :: a == b
  }

  ghost predicate StateOk(jobs: State) {
    && (forall id | id in jobs :: jobs[id].id == id && jobs[id].version >= 1 && WellFormed(jobs[id]))
    && OneOpenPerSubject(jobs)
  }

  /** How a stored job may differ from what was stored for it before. */
  ghost predicate Evolved(a: Job, b: Job) {
    && a.version <= b.version
    && (a.version == b.version ==> a == b)
    && SameSlot(a, b) && a.maxAttempts == b.maxAttempts && a.createdAt == b.createdAt
    && a.attempts <= b.attempts && a.updatedAt <= b.updatedAt
    && (b.Open() ==> a.Open())
  }

  ghost predicate Grown(a: State, b: State) {
    forall id | id in a :: id in b && Evolved(a[id], b[id])
  }

  ghost predicate Sound(states: seq<State>) {
    && (forall k | 0 <= k < |states| :: StateOk(states[k]))
    && (forall i, k | 0 <= i <= k < |states| :: Grown(states[i], states[k]))
  }

  lemma SubmissionStep(past: seq<State>, attempt: Attempt)
    requires past != [] && Sound(past) && attempt.Submitted?
    ensures var now, next := past[|past| - 1], After(past, attempt); StateOk(next) && Grown(now, next)
  {
    var now, next := past[|past| - 1], After(past, attempt);
    CreateWellFormed(attempt.id, attempt.organizationId, attempt.kind, attempt.subject, attempt.maxAttempts, attempt.at);
    if next != now {
      var job := Create(attempt.id, attempt.organizationId, attempt.kind, attempt.subject, attempt.maxAttempts, attempt.at).value;
      assert next == now[job.id := job.Saved()] && WellFormed(job.Saved());
      forall a, b | a in next && b in next && next[a].Open() && next[b].Open() && next[a].subject.Some? && SameSlot(next[a], next[b])
        ensures a == b
      {
        if a != b && a == job.id { assert Matches(now[b], job.organizationId, job.kind, job.subject.value); }
        if a != b && b == job.id { assert Matches(now[a], job.organizationId, job.kind, job.subject.value); }
      }
    }
  }

  /** The version check: a commit is accepted exactly when the job is still the one its client read. */
  lemma AcceptedIffUnchanged(past: seq<State>, attempt: Attempt)
    requires past != [] && Sound(past) && attempt.Transitioned?
    requires attempt.id in SeenBy(past, attempt)
    requires Transition(SeenBy(past, attempt)[attempt.id], attempt.action, attempt.at).Ok?
    ensures
      var now, read := past[|past| - 1], SeenBy(past, attempt)[attempt.id];
      var changed := Transition(read, attempt.action, attempt.at).value;
      && attempt.id in now
      && Intent(past, attempt) == Some((UpdateMode, changed))
      && (Check(now, UpdateMode, changed).Ok? <==> now[attempt.id] == read)
      && (Check(now, UpdateMode, changed).Err? ==> Check(now, UpdateMode, changed) == Err(StaleWrite))
      && After(past, attempt) == if now[attempt.id] == read then now[attempt.id := changed.Saved()] else now
  {
    TransitionLegal(SeenBy(past, attempt)[attempt.id], attempt.action, attempt.at);
    assert Grown(past[Min(attempt.readAt, |past| - 1)], past[|past| - 1]);
  }

  lemma ReplacementKeeps(now: State, id: ID, action: Action, at: Date)
    requires StateOk(now) && id in now && Transition(now[id], action, at).Ok?
    ensures var next := now[id := Transition(now[id], action, at).value.Saved()]; StateOk(next) && Grown(now, next)
  {
    TransitionLegal(now[id], action, at);
    var changed := Transition(now[id], action, at).value;
    var next := now[id := changed.Saved()];
    assert Evolved(now[id], changed.Saved()) && WellFormed(changed.Saved());
    assert changed.id == id by { assert changed.Identity().0 == now[id].Identity().0; }
    forall a, b | a in next && b in next && next[a].Open() && next[b].Open() && next[a].subject.Some? && SameSlot(next[a], next[b])
      ensures a == b
    {
      assert now[a].Open() && now[b].Open() && SameSlot(now[a], now[b]);
    }
  }

  lemma TransitionStep(past: seq<State>, attempt: Attempt)
    requires past != [] && Sound(past) && attempt.Transitioned?
    ensures var now, next := past[|past| - 1], After(past, attempt); StateOk(next) && Grown(now, next)
  {
    var now := past[|past| - 1];
    assert StateOk(now) && Grown(now, now);
    if attempt.id in SeenBy(past, attempt) && Transition(SeenBy(past, attempt)[attempt.id], attempt.action, attempt.at).Ok? {
      AcceptedIffUnchanged(past, attempt);
      if now[attempt.id] == SeenBy(past, attempt)[attempt.id] {
        ReplacementKeeps(now, attempt.id, attempt.action, attempt.at);
      }
    }
  }

  lemma AttemptKeeps(past: seq<State>, attempt: Attempt)
    requires past != [] && Sound(past)
    ensures Sound(past + [After(past, attempt)])
  {
    var now, next := past[|past| - 1], After(past, attempt);
    if attempt.Submitted? { SubmissionStep(past, attempt); } else { TransitionStep(past, attempt); }
    var states := past + [next];
    forall i, k | 0 <= i <= k < |states| ensures Grown(states[i], states[k]) {
      if k == |past| && i < |past| { assert Grown(states[i], now); }
    }
  }

  function Before(run: Run): Run
    requires run.states != [] && run.attempts != []
  {
    Run(run.states[..|run.states| - 1], run.attempts[..|run.attempts| - 1])
  }

  lemma BeforeFits(run: Run)
    requires Fits(run) && run.attempts != []
    ensures Fits(Before(run))
    ensures run == Before(run).Then(run.attempts[|run.attempts| - 1])
  {
    var before := Before(run);
    forall k | 0 <= k < |before.attempts|
      ensures before.states[k + 1] == After(before.states[..k + 1], before.attempts[k])
    {
      assert before.states[..k + 1] == run.states[..k + 1];
    }
    assert run.states[..|run.attempts|] == before.states;
  }

  lemma ThenFits(run: Run, attempt: Attempt)
    requires Fits(run)
    ensures Fits(run.Then(attempt))
  {
    var next := run.Then(attempt);
    forall k | 0 <= k < |next.attempts|
      ensures next.states[k + 1] == After(next.states[..k + 1], next.attempts[k])
    {
      if k < |run.attempts| {
        assert next.states[..k + 1] == run.states[..k + 1];
      } else {
        assert next.states[..k + 1] == run.states;
      }
    }
  }

  /** In every run: storable jobs, one open job per subject, versions that fix the job, no closed job reopening. */
  lemma {:induction false} RunSound(run: Run)
    requires Fits(run)
    ensures Sound(run.states)
    decreases |run.attempts|
  {
    if run.attempts != [] {
      BeforeFits(run);
      RunSound(Before(run));
      AttemptKeeps(Before(run).states, run.attempts[|run.attempts| - 1]);
    }
  }

  // ----- The same, in the words of the source -----

  lemma OneOpenJob(run: Run, k: nat, a: ID, b: ID, organizationId: ID, kind: string, subject: Subject)
    requires Fits(run) && k < |run.states|
    requires a in run.states[k] && Matches(run.states[k][a], organizationId, kind, subject)
    requires b in run.states[k] && Matches(run.states[k][b], organizationId, kind, subject)
    ensures a == b
  {
    RunSound(run);
    assert StateOk(run.states[k]);
  }

  lemma ClosedStaysClosed(run: Run, i: nat, k: nat, id: ID)
    requires Fits(run) && i <= k < |run.states| && id in run.states[i] && !run.states[i][id].Open()
    ensures id in run.states[k] && !run.states[k][id].Open()
  {
    RunSound(run);
    assert Grown(run.states[i], run.states[k]);
  }

  lemma VersionFixesJob(run: Run, i: nat, k: nat, id: ID)
    requires Fits(run) && i < |run.states| && k < |run.states| && id in run.states[i] && id in run.states[k]
    ensures run.states[i][id].version == run.states[k][id].version <==> run.states[i][id] == run.states[k][id]
  {
    RunSound(run);
    assert Grown(run.states[i], run.states[k]) || Grown(run.states[k], run.states[i]);
  }

  // ----- No lost update: the run is serializable -----

  /** The same attempt with nothing between its read and its write. */
  function Serial(jobs: State, attempt: Attempt): State {
    After([jobs], attempt)
  }

  function SerialState(attempts: seq<Attempt>): State {
    if attempts == [] then map[] else Serial(SerialState(attempts[..|attempts| - 1]), attempts[|attempts| - 1])
  }

  /** The attempts whose commit was accepted, in commit order. */
  function Accepted(run: Run): seq<Attempt>
    requires |run.states| == |run.attempts| + 1
    decreases |run.attempts|
  {
    if run.attempts == [] then []
    else
      var k := |run.attempts| - 1;
      Accepted(Before(run)) + (if run.states[k + 1] == run.states[k] then [] else [run.attempts[k]])
  }

  /** One more attempt: either it changed nothing, or it is the latest accepted one. */
  lemma AcceptedNext(run: Run)
    requires Fits(run) && run.attempts != []
    ensures
      var last, before := run.attempts[|run.attempts| - 1], Before(run);
      && Fits(before) && run.Now() == After(before.states, last)
      && Accepted(run) == if run.Now() == before.Now() then Accepted(before) else Accepted(before) + [last]
  {
    BeforeFits(run);
  }

  lemma SerialNext(attempts: seq<Attempt>, last: Attempt)
    ensures SerialState(attempts + [last]) == Serial(SerialState(attempts), last)
  {
    assert (attempts + [last])[..|attempts|] == attempts;
  }

  lemma AcceptedIsSerial(past: seq<State>, attempt: Attempt)
    requires past != [] && Sound(past)
    ensures After(past, attempt) == past[|past| - 1] || After(past, attempt) == Serial(past[|past| - 1], attempt)
  {
    if attempt.Transitioned? && After(past, attempt) != past[|past| - 1] {
      AcceptedIffUnchanged(past, attempt);
    }
  }

  /** Whatever the interleaving, the store holds what the accepted commands alone leave when each one reads and
      writes at its commit point; refused commands left no trace. */
  lemma {:induction false} Serializable(run: Run)
    requires Fits(run)
    ensures run.Now() == SerialState(Accepted(run))
    decreases |run.attempts|
  {
    if run.attempts != [] {
      var last := run.attempts[|run.attempts| - 1];
      var before := Before(run);
      AcceptedNext(run);
      Serializable(before);
      RunSound(before);
      AcceptedIsSerial(before.states, last);
      SerialNext(Accepted(before), last);
    }
  }

  function Writes(attempts: seq<Attempt>, id: ID): nat {
    if attempts == [] then 0
    else Writes(attempts[..|attempts| - 1], id) + (if attempts[|attempts| - 1].id == id then 1 else 0)
  }

  lemma WritesNext(attempts: seq<Attempt>, last: Attempt, id: ID)
    ensures Writes(attempts + [last], id) == Writes(attempts, id) + (if last.id == id then 1 else 0)
  {
    assert (attempts + [last])[..|attempts|] == attempts;
  }

  function VersionOf(jobs: State, id: ID): int {
    if id in jobs then jobs[id].version else 0
  }

  lemma AcceptedCounts(past: seq<State>, attempt: Attempt, id: ID)
    requires past != [] && Sound(past)
    requires After(past, attempt) != past[|past| - 1]
    ensures VersionOf(After(past, attempt), id) == VersionOf(past[|past| - 1], id) + (if attempt.id == id then 1 else 0)
  {
    if attempt.Transitioned? {
      AcceptedIffUnchanged(past, attempt);
      TransitionLegal(SeenBy(past, attempt)[attempt.id], attempt.action, attempt.at);
    }
  }

  /** A job's version is the number of commits accepted for it. */
  lemma {:induction false} VersionCountsCommits(run: Run, id: ID)
    requires Fits(run)
    ensures Writes(Accepted(run), id) == VersionOf(run.Now(), id)
    decreases |run.attempts|
  {
    if run.attempts != [] {
      var last := run.attempts[|run.attempts| - 1];
      var before := Before(run);
      AcceptedNext(run);
      VersionCountsCommits(before, id);
      WritesNext(Accepted(before), last, id);
      if run.Now() != before.Now() {
        RunSound(before);
        AcceptedCounts(before.states, last, id);
      }
    }
  }

  lemma OneChange(past: seq<State>, attempt: Attempt, id: ID)
    requires past != [] && Sound(past) && id in past[|past| - 1] && id in After(past, attempt)
    ensures var a, b := past[|past| - 1][id], After(past, attempt)[id];
      a == b || (Edge(a, b) && b.version == a.version + 1)
  {
    if attempt.Transitioned? && After(past, attempt) != past[|past| - 1] {
      AcceptedIffUnchanged(past, attempt);
      TransitionLegal(past[|past| - 1][attempt.id], attempt.action, attempt.at);
    }
  }

  /** Each accepted change of a stored job follows an edge of the lifecycle. */
  lemma ChangesAreEdges(run: Run, k: nat, id: ID)
    requires Fits(run) && k < |run.attempts| && id in run.states[k]
    ensures id in run.states[k + 1]
    ensures run.states[k + 1][id] == run.states[k][id]
         || (Edge(run.states[k][id], run.states[k + 1][id]) && run.states[k + 1][id].version == run.states[k][id].version + 1)
  {
    RunSound(run);
    var past := run.states[..k + 1];
    assert past[|past| - 1] == run.states[k];
    assert Grown(run.states[k], run.states[k + 1]);
    assert Sound(past);
    OneChange(past, run.attempts[k], id);
  }
}
