/**
 * The in-memory job store and its version-checked writer
 * (src/modules/jobs/infra/in-memory/store.ts, src/modules/jobs/infra/in-memory/writer.ts).
 */
module JobStore {
  import opened Prelude
  import opened Ids
  import opened J = Jobs

  type State = map<ID, Job>

  datatype StoreFailure =
    | JobExists | SubjectTaken | JobNotFound | OrganizationMismatch | StaleWrite | ProvenanceMismatch | PublishFailed

  datatype Mode = CreateMode | UpdateMode

  predicate Matches(job: Job, organizationId: ID, kind: string, subject: Subject) {
    job.Open() && job.organizationId == organizationId && job.kind == kind && job.subject == Some(subject)
  }

  predicate Taken(jobs: State, organizationId: ID, kind: string, subject: Subject) {
    exists id :: id in jobs && Matches(jobs[id], organizationId, kind, subject)
  }

  predicate Keyed(jobs: State) {
    forall id | id in jobs :: jobs[id].id == id
  }

  /** What the writer's checks decide, and what it stores. */
  function Check(jobs: State, mode: Mode, job: Job): Result<State, StoreFailure> {
    match mode
    case CreateMode =>
      if job.id in jobs then Err(JobExists)
      else if job.subject.Some? && Taken(jobs, job.organizationId, job.kind, job.subject.value) then Err(SubjectTaken)
      else Ok(jobs[job.id := job.Saved()])
    case UpdateMode =>
      if job.id !in jobs then Err(JobNotFound)
      else if jobs[job.id].organizationId != job.organizationId then Err(OrganizationMismatch)
      else if jobs[job.id].version != job.version then Err(StaleWrite)
      else Ok(jobs[job.id := job.Saved()])
  }

  predicate RunningBefore(job: Job, startedBefore: int) {
    job.status.Running? && job.startedAt.Some? && job.startedAt.value < startedBefore
  }

  /** When a running job started; jobs that never started do not matter to the sort. */
  function StartedAt(job: Job): int {
    if job.startedAt.Some? then job.startedAt.value else 0
  }

  function RunningIds(jobs: State, startedBefore: int): set<ID> {
    set id | id in jobs && RunningBefore(jobs[id], startedBefore)
  }

  // ----- Insertion order -----

  predicate Distinct(ids: seq<ID>) { forall i, j | 0 <= i < j < |ids| :: ids[i] != ids[j] }

  /** The keys in the order of their insertion, as the source's map lists them. */
  ghost predicate Lists(order: seq<ID>, jobs: State) {
    && (forall id :: id in jobs <==> id in order)
    && Distinct(order)
  }

  function PlaceOf(order: seq<ID>, id: ID): (i: nat)
    requires id in order
    ensures i < |order| && order[i] == id
  {
    if order[0] == id then 0 else 1 + PlaceOf(order[1..], id)
  }

  function Without(order: seq<ID>, id: ID): seq<ID> {
    if order == [] then [] else (if order[0] == id then [] else [order[0]]) + Without(order[1..], id)
  }

  lemma {:induction false} WithoutLast(order: seq<ID>, id: ID)
    requires id !in order
    ensures Without(order + [id], id) == order
    decreases |order|
  {
    if order == [] {
      assert [id][1..] == [];
    } else {
      assert (order + [id])[1..] == order[1..] + [id];
      WithoutLast(order[1..], id);
    }
  }

  lemma {:induction false} WithoutKeeps(order: seq<ID>, id: ID)
    requires Distinct(order)
    ensures forall other :: other in Without(order, id) <==> other in order && other != id
    ensures Distinct(Without(order, id))
    decreases |order|
  {
    if order != [] {
      var rest := order[1..];
      assert forall i | 0 <= i < |rest| :: rest[i] == order[i + 1];
      assert Distinct(rest) && order[0] !in rest;
      WithoutKeeps(rest, id);
      var kept := Without(rest, id);
      assert order[0] !in kept;
      assert forall other :: other in order <==> other == order[0] || other in rest;
    }
  }

  /** The sort is stable: jobs started at the same time stay in insertion order. */
  predicate Precedes(jobs: State, order: seq<ID>, a: ID, b: ID)
    requires a in jobs && b in jobs && a in order && b in order
  {
    StartedAt(jobs[a]) < StartedAt(jobs[b])
    || (StartedAt(jobs[a]) == StartedAt(jobs[b]) && PlaceOf(order, a) < PlaceOf(order, b))
  }

  lemma PrecedesTotal(jobs: State, order: seq<ID>, a: ID, b: ID)
    requires a in jobs && b in jobs && a in order && b in order && a != b
    ensures Precedes(jobs, order, a, b) || Precedes(jobs, order, b, a)
  {
    assert order[PlaceOf(order, a)] != order[PlaceOf(order, b)];
  }

  lemma PrecedesTransitive(jobs: State, order: seq<ID>, a: ID, b: ID, c: ID)
    requires a in jobs && b in jobs && c in jobs && a in order && b in order && c in order
    requires (a == b || Precedes(jobs, order, a, b)) && Precedes(jobs, order, b, c)
    ensures Precedes(jobs, order, a, c)
  {
  }

  /** Selection under way: `ids` lists the first jobs in order, `left` are the others. */
  ghost predicate Sorted(jobs: State, order: seq<ID>, startedBefore: int, ids: seq<ID>, left: set<ID>)
    requires Lists(order, jobs)
  {
    && |left| + |ids| == |RunningIds(jobs, startedBefore)|
    && (forall i | 0 <= i < |ids| :: ids[i] in RunningIds(jobs, startedBefore))
    && (forall id | id in left :: id in RunningIds(jobs, startedBefore) && id !in ids)
    && (forall id | id in RunningIds(jobs, startedBefore) :: id in left || id in ids)
    && (forall i, j | 0 <= i < j < |ids| :: Precedes(jobs, order, ids[i], ids[j]))
    && (forall i, id | 0 <= i < |ids| && id in left :: Precedes(jobs, order, ids[i], id))
  }

  lemma SortedNext(jobs: State, order: seq<ID>, startedBefore: int, ids: seq<ID>, left: set<ID>, first: ID)
    requires Lists(order, jobs) && Sorted(jobs, order, startedBefore, ids, left)
    requires first in left && forall id | id in left && id != first :: Precedes(jobs, order, first, id)
    ensures Sorted(jobs, order, startedBefore, ids + [first], left - {first})
  {
  }

  /** The selected jobs: running, in order, and before every other running one. */
  ghost predicate Selected(jobs: State, order: seq<ID>, startedBefore: int, limit: nat, r: seq<Job>)
    requires Lists(order, jobs)
  {
    && |r| == Min(limit, |RunningIds(jobs, startedBefore)|)
    && (forall i | 0 <= i < |r| :: r[i].id in jobs && jobs[r[i].id] == r[i] && RunningBefore(r[i], startedBefore))
    && (forall i, j | 0 <= i < j < |r| :: Precedes(jobs, order, r[i].id, r[j].id))
    && (forall id | id in RunningIds(jobs, startedBefore) ::
          jobs[id] in r || (|r| == limit && forall i | 0 <= i < |r| :: Precedes(jobs, order, r[i].id, id)))
  }

  lemma SelectionEnds(jobs: State, order: seq<ID>, startedBefore: int, limit: nat, ids: seq<ID>, left: set<ID>, r: seq<Job>)
    requires Keyed(jobs) && Lists(order, jobs) && Sorted(jobs, order, startedBefore, ids, left)
    requires |r| == |ids| <= limit && (left == {} || |ids| == limit)
    requires forall i | 0 <= i < |ids| :: r[i] == jobs[ids[i]]
    ensures Selected(jobs, order, startedBefore, limit, r)
  {
    forall id | id in RunningIds(jobs, startedBefore)
      ensures jobs[id] in r || (|r| == limit && forall i | 0 <= i < |r| :: Precedes(jobs, order, r[i].id, id))
    {
      if i :| 0 <= i < |ids| && ids[i] == id { assert r[i] == jobs[id]; }
    }
  }

  class Store {
    var jobs: State
    var order: seq<ID>

    ghost predicate Valid()
      reads this
    {
      Keyed(jobs) && Lists(order, jobs)
    }

    constructor ()
      ensures Valid() && jobs == map[]
    {
      jobs, order := map[], [];
    }

    method OpenJobBySubject(organizationId: ID, kind: string, subject: Subject) returns (found: Option<Job>)
      ensures found.None? <==> !Taken(jobs, organizationId, kind, subject)
      ensures found.Some? ==> exists id :: id in jobs && jobs[id] == found.value && Matches(jobs[id], organizationId, kind, subject)
    {
      if Taken(jobs, organizationId, kind, subject) {
        var id :| id in jobs && Matches(jobs[id], organizationId, kind, subject);
        return Some(jobs[id]);
      }
      found := None;
    }

    /** Earliest started first, in insertion order among those started at the same time, at most `limit`. */
    method RunningStartedBefore(startedBefore: int, limit: nat) returns (r: seq<Job>)
      requires Valid()
      ensures Selected(jobs, order, startedBefore, limit, r)
    {
      var left := RunningIds(jobs, startedBefore);
      var ids: seq<ID> := [];
      r := [];
      while left != {} && |ids| < limit
        invariant |ids| == |r| <= limit
        invariant Sorted(jobs, order, startedBefore, ids, left)
        invariant forall i | 0 <= i < |ids| :: r[i] == jobs[ids[i]]
        decreases |left|
      {
        ghost var some := Earliest(jobs, order, left, startedBefore);
        var first :| first in left && forall id | id in left && id != first :: Precedes(jobs, order, first, id);
        SortedNext(jobs, order, startedBefore, ids, left, first);
        left := left - {first};
        ids := ids + [first];
        r := r + [jobs[first]];
      }
      SelectionEnds(jobs, order, startedBefore, limit, ids, left, r);
    }

    method Add(job: Job)
      requires Valid()
      modifies this
      ensures Valid() && jobs == old(jobs)[job.id := job]
      ensures order == if job.id in old(jobs) then old(order) else old(order) + [job.id]
    {
      order := if job.id in jobs then order else order + [job.id];
      jobs := jobs[job.id := job];
    }

    method Replace(job: Job)
      requires Valid()
      modifies this
      ensures Valid() && jobs == old(jobs)[job.id := job]
      ensures order == if job.id in old(jobs) then old(order) else old(order) + [job.id]
    {
      order := if job.id in jobs then order else order + [job.id];
      jobs := jobs[job.id := job];
    }

    method Remove(id: ID)
      requires Valid()
      modifies this
      ensures Valid() && jobs == old(jobs) - {id} && order == Without(old(order), id)
    {
      WithoutKeeps(order, id);
      order := Without(order, id);
      jobs := jobs - {id};
    }
  }

  lemma {:induction false} Earliest(jobs: State, order: seq<ID>, ids: set<ID>, startedBefore: int) returns (first: ID)
    requires Lists(order, jobs) && ids != {} && ids <= RunningIds(jobs, startedBefore)
    ensures first in ids && forall id | id in ids && id != first :: Precedes(jobs, order, first, id)
    decreases |ids|
  {
    first :| first in ids;
    var rest := ids - {first};
    assert forall id | id in ids && id != first :: id in rest;
    if rest != {} {
      var other := Earliest(jobs, order, rest, startedBefore);
      PrecedesTotal(jobs, order, first, other);
      if Precedes(jobs, order, other, first) {
        first := other;
      } else {
        assert Precedes(jobs, order, first, other);
        forall id | id in ids && id != first ensures Precedes(jobs, order, first, id) {
          if id != other { PrecedesTransitive(jobs, order, first, other, id); }
        }
      }
    }
  }

  class Writer {
    const store: Store

    constructor (store: Store)
      ensures this.store == store
    {
      this.store := store;
    }

    /** Check, write, publish; a refused publication puts the store back as it was, insertion order included. */
    method Commit(mode: Mode, job: Job, ofThisWork: bool, published: bool) returns (r: Result<(), StoreFailure>)
      requires store.Valid()
      modifies store
      ensures store.Valid()
      ensures r.Err? ==> store.order == old(store.order)
      ensures
        var checked := Check(old(store.jobs), mode, job);
        if !ofThisWork then r == Err(ProvenanceMismatch) && store.jobs == old(store.jobs)
        else if checked.Err? then r == Err(checked.error) && store.jobs == old(store.jobs)
        else if !published then r == Err(PublishFailed) && store.jobs == old(store.jobs)
        else r == Ok(()) && store.jobs == checked.value
    {
      if !ofThisWork {
        return Err(ProvenanceMismatch);
      }
      var previous := if job.id in store.jobs then Some(store.jobs[job.id]) else None;
      if mode.CreateMode? {
        if previous.Some? {
          return Err(JobExists);
        }
        if job.subject.Some? {
          var open := store.OpenJobBySubject(job.organizationId, job.kind, job.subject.value);
          if open.Some? {
            return Err(SubjectTaken);
          }
        }
      } else {
        if previous.None? {
          return Err(JobNotFound);
        }
        if previous.value.organizationId != job.organizationId {
          return Err(OrganizationMismatch);
        }
        if previous.value.version != job.version {
          return Err(StaleWrite);
        }
      }
      ghost var before, order := store.jobs, store.order;
      if mode.CreateMode? {
        store.Add(job.Saved());
      } else {
        store.Replace(job.Saved());
      }
      if !published {
        if previous.Some? {
          store.Replace(previous.value);
        } else {
          WithoutLast(order, job.id);
          store.Remove(job.id);
        }
        assert store.jobs == before;
        return Err(PublishFailed);
      }
      r := Ok(());
    }
  }
}
