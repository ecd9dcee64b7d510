/**
 * Which sessions a login evicts, and the cap it leaves
 * (src/modules/identity/app/commands/authenticate-identity.ts).
 */
module Logins {
  import opened Prelude
  import opened Ids
  import opened Accounts
  import opened AccountStore

  /** Newest first, ties by id. */
  predicate Newer(a: Session, b: Session) {
    a.createdAt > b.createdAt || (a.createdAt == b.createdAt && StringLess(b.id, a.id))
  }

  /** What `listActive` returns: exactly the live sessions of the identity, newest first. */
  ghost predicate IsListing(sessions: map<ID, StoredSession>, identityId: ID, listed: seq<Session>) {
    && (forall i | 0 <= i < |listed| :: IsLiveOf(sessions, identityId, listed[i]))
    && (forall id | id in sessions && IsLiveOf(sessions, identityId, sessions[id].session) :: sessions[id].session in listed)
    && (forall i, j | 0 <= i < j < |listed| :: Newer(listed[i], listed[j]))
  }

  predicate IsLiveOf(sessions: map<ID, StoredSession>, identityId: ID, s: Session) {
    s.id in sessions && sessions[s.id].session == s && s.identityId == identityId && s.status.Live?
  }

  predicate Usable(s: Session, at: int, idleTimeoutMs: int) {
    AssertUsable(s, At(at), Some(idleTimeoutMs)).Ok?
  }

  function UsableOf(listed: seq<Session>, at: int, idleTimeoutMs: int): seq<Session> {
    if |listed| == 0 then []
    else
      var before := UsableOf(listed[..|listed| - 1], at, idleTimeoutMs);
      var last := listed[|listed| - 1];
      if Usable(last, at, idleTimeoutMs) then before + [last] else before
  }

  function RevokeAll(list: seq<Session>, at: int): Result<seq<Session>, Failure> {
    if |list| == 0 then Ok([])
    else
      var before := RevokeAll(list[..|list| - 1], at);
      var last := RevokeSession(list[|list| - 1], At(at));
      if before.Err? then before
      else if last.Err? then Err(last.error)
      else Ok(before.value + [last.value])
  }

  /** How many usable sessions a login keeps beside the one it opens. */
  function Kept(usable: nat, maxActive: int): (k: nat)
    ensures k <= usable
  {
    if Max(0, maxActive - 1) < usable then Max(0, maxActive - 1) else usable
  }

  /** The sessions a login at `at` revokes: the usable ones past the newest `maxActive - 1`. */
  function Evictions(listed: seq<Session>, at: int, idleTimeoutMs: int, maxActive: int): Result<seq<Session>, Failure> {
    var usable := UsableOf(listed, at, idleTimeoutMs);
    RevokeAll(usable[Kept(|usable|, maxActive)..], at)
  }

  lemma {:induction false} RevokeAllSpec(list: seq<Session>, at: int)
    requires RevokeAll(list, at).Ok?
    ensures var r := RevokeAll(list, at).value;
      |r| == |list| && forall i | 0 <= i < |r| ::
        r[i] == list[i].(status := Ended, revokedAt := Some(at)) && list[i].status.Live?
    decreases |list|
  {
    if |list| > 0 { RevokeAllSpec(list[..|list| - 1], at); }
  }

  lemma {:induction false} UsableOfSpec(listed: seq<Session>, at: int, idle: int)
    requires forall i, j | 0 <= i < j < |listed| :: Newer(listed[i], listed[j])
    ensures var u := UsableOf(listed, at, idle);
      && (forall s :: s in u <==> s in listed && Usable(s, at, idle))
      && (forall i, j | 0 <= i < j < |u| :: Newer(u[i], u[j]))
    decreases |listed|
  {
    if |listed| > 0 {
      var n := |listed| - 1;
      UsableOfSpec(listed[..n], at, idle);
      var before := UsableOf(listed[..n], at, idle);
      assert listed == listed[..n] + [listed[n]];
      forall i | 0 <= i < |before|
        ensures Newer(before[i], listed[n])
      {
        assert before[i] in listed[..n];
      }
    }
  }

  // ----- The cap -----

  ghost function UsableSessions(sessions: map<ID, StoredSession>, identityId: ID, at: int, idle: int): set<ID> {
    set id | id in sessions && sessions[id].session.identityId == identityId && Usable(sessions[id].session, at, idle)
  }

  ghost predicate Keyed(sessions: map<ID, StoredSession>) {
    forall id | id in sessions :: sessions[id].session.id == id
  }

  ghost function IdsOf(list: seq<Session>): set<ID> { set i | 0 <= i < |list| :: list[i].id }

  lemma IdsOfMore(list: seq<Session>, last: Session)
    ensures IdsOf(list + [last]) == IdsOf(list) + {last.id}
  {
    var more := list + [last];
    forall id | id in IdsOf(list)
      ensures id in IdsOf(more)
    {
      var i :| 0 <= i < |list| && list[i].id == id;
      assert more[i].id == id;
    }
    assert more[|list|].id == last.id;
  }

  lemma {:induction false} IdsOfDistinct(list: seq<Session>)
    requires forall i, j | 0 <= i < j < |list| :: list[i].id != list[j].id
    ensures |IdsOf(list)| == |list|
    decreases |list|
  {
    if |list| > 0 {
      var n := |list| - 1;
      IdsOfDistinct(list[..n]);
      IdsOfMore(list[..n], list[n]);
      assert list == list[..n] + [list[n]];
    }
  }

  /** One login, from listing to commit without interruption. */
  ghost predicate LoginCommits(s: State, s': State, session: Session, credential: Credential, digest: string,
                               listed: seq<Session>, idle: int, maxActive: int)
  {
    && IsListing(s.sessions, session.identityId, listed)
    && var evicted := Evictions(listed, session.createdAt, idle, maxActive);
       evicted.Ok? && SessionCommit(s, session, credential, digest, evicted.value) == Ok(s')
  }

  /** The listed sessions still usable, newest first: distinct, stored, and all there are. */
  ghost predicate UsableListing(sessions: map<ID, StoredSession>, identityId: ID, at: int, idle: int, usable: seq<Session>) {
    && (forall i | 0 <= i < |usable| :: IsLiveOf(sessions, identityId, usable[i]) && Usable(usable[i], at, idle))
    && (forall id | id in sessions && sessions[id].session.identityId == identityId && Usable(sessions[id].session, at, idle) ::
          sessions[id].session in usable)
    && (forall i, j | 0 <= i < j < |usable| :: Newer(usable[i], usable[j]) && usable[i].id != usable[j].id)
  }

  lemma ListingUsable(sessions: map<ID, StoredSession>, identityId: ID, at: int, idle: int, listed: seq<Session>)
    requires Keyed(sessions) && IsListing(sessions, identityId, listed)
    ensures UsableListing(sessions, identityId, at, idle, UsableOf(listed, at, idle))
  {
    UsableOfSpec(listed, at, idle);
    var usable := UsableOf(listed, at, idle);
    forall i | 0 <= i < |usable|
      ensures IsLiveOf(sessions, identityId, usable[i]) && Usable(usable[i], at, idle)
    {
      assert usable[i] in listed;
    }
    forall i, j | 0 <= i < j < |usable|
      ensures usable[i].id != usable[j].id
    {
      StringLessTotal(usable[i].id, usable[i].id);
    }
    forall id | id in sessions && sessions[id].session.identityId == identityId && Usable(sessions[id].session, at, idle)
      ensures sessions[id].session in usable
    {
      assert IsLiveOf(sessions, identityId, sessions[id].session);
    }
  }

  /** After the evictions a session of the identity is usable exactly if it is among those kept. */
  lemma UsableAfterEviction(sessions: map<ID, StoredSession>, identityId: ID, at: int, idle: int, usable: seq<Session>,
                            k: nat, id: ID)
    requires Keyed(sessions) && UsableListing(sessions, identityId, at, idle, usable) && k <= |usable|
    requires RevokeAll(usable[k..], at).Ok?
    ensures var after := WithSaved(sessions, RevokeAll(usable[k..], at).value);
      id in UsableSessions(after, identityId, at, idle) <==> id in IdsOf(usable[..k])
  {
    var gone := usable[k..];
    RevokeAllSpec(gone, at);
    var evicted := RevokeAll(gone, at).value;
    assert forall j | k <= j < |usable| :: usable[j].id == evicted[j - k].id;
    WithSavedFrame(sessions, evicted, id);
    var after := WithSaved(sessions, evicted);
    if id in IdsOf(usable[..k]) {
      var i :| 0 <= i < k && usable[..k][i].id == id;
      assert usable[i].id == id;
      assert after[id] == sessions[id];
    }
    if id in UsableSessions(after, identityId, at, idle) {
      assert after[id] == sessions[id];
      var i :| 0 <= i < |usable| && usable[i] == sessions[id].session;
      assert i < k;
      assert usable[..k][i].id == id;
    }
  }

  /** The usable sessions of the identity after the login: those kept, and the new one if it is usable itself. */
  lemma UsableAfterLogin(s: State, s': State, session: Session, credential: Credential, digest: string,
                         listed: seq<Session>, idle: int, maxActive: int)
    requires Keyed(s.sessions) && LoginCommits(s, s', session, credential, digest, listed, idle, maxActive)
    ensures var usable := UsableOf(listed, session.createdAt, idle);
      UsableSessions(s'.sessions, session.identityId, session.createdAt, idle)
        == IdsOf(usable[..Kept(|usable|, maxActive)])
           + if Usable(session, session.createdAt, idle) then {session.id} else {}
    ensures session.id !in IdsOf(UsableOf(listed, session.createdAt, idle))
  {
    var at, identityId := session.createdAt, session.identityId;
    var usable := UsableOf(listed, at, idle);
    var k := Kept(|usable|, maxActive);
    ListingUsable(s.sessions, identityId, at, idle, listed);
    var after := WithSaved(s.sessions, RevokeAll(usable[k..], at).value);
    assert s'.sessions == after[session.id := StoredSession(session.Saved(), digest)];
    forall id
      ensures id in UsableSessions(after, identityId, at, idle) <==> id in IdsOf(usable[..k])
    {
      UsableAfterEviction(s.sessions, identityId, at, idle, usable, k, id);
    }
    WithSavedFrame(s.sessions, RevokeAll(usable[k..], at).value, session.id);
    assert session.id !in IdsOf(usable[..k]);
  }

  /** The cap: after an uninterrupted login the identity has min(usable before, max(0, maxActive - 1)) + 1 usable
      sessions, so at most maxActive of them exactly when maxActive is at least 1. */
  lemma LoginCap(s: State, s': State, session: Session, credential: Credential, digest: string,
                 listed: seq<Session>, idle: int, maxActive: int)
    requires Keyed(s.sessions) && LoginCommits(s, s', session, credential, digest, listed, idle, maxActive)
    requires Usable(session, session.createdAt, idle)
    ensures var before := |UsableSessions(s.sessions, session.identityId, session.createdAt, idle)|;
      var after := |UsableSessions(s'.sessions, session.identityId, session.createdAt, idle)|;
      && after == Min(before, Max(0, maxActive - 1)) + 1
      && (after <= maxActive <==> maxActive >= 1)
  {
    var at, identityId := session.createdAt, session.identityId;
    var usable := UsableOf(listed, at, idle);
    var k := Kept(|usable|, maxActive);
    UsableAfterLogin(s, s', session, credential, digest, listed, idle, maxActive);
    ListingUsable(s.sessions, identityId, at, idle, listed);
    UsableBefore(s.sessions, identityId, at, idle, usable);
    CountWithNew(usable, k, session.id);
  }

  lemma CountWithNew(usable: seq<Session>, k: nat, id: ID)
    requires forall i, j | 0 <= i < j < |usable| :: usable[i].id != usable[j].id
    requires k <= |usable| && id !in IdsOf(usable)
    ensures |IdsOf(usable[..k]) + {id}| == k + 1
  {
    IdsOfDistinct(usable[..k]);
    assert forall i | 0 <= i < k :: usable[..k][i] == usable[i];
  }

  lemma UsableBefore(sessions: map<ID, StoredSession>, identityId: ID, at: int, idle: int, usable: seq<Session>)
    requires Keyed(sessions) && UsableListing(sessions, identityId, at, idle, usable)
    ensures |UsableSessions(sessions, identityId, at, idle)| == |usable|
  {
    forall id
      ensures id in UsableSessions(sessions, identityId, at, idle) <==> id in IdsOf(usable)
    {
      if id in UsableSessions(sessions, identityId, at, idle) {
        var i :| 0 <= i < |usable| && usable[i] == sessions[id].session;
        assert usable[i].id == id;
      }
    }
    assert UsableSessions(sessions, identityId, at, idle) == IdsOf(usable);
    IdsOfDistinct(usable);
  }

  /** Only the oldest usable sessions of this identity go: every kept one is newer than every evicted one,
      and no session of another identity, nor any other map, changes. */
  lemma LoginEvictsOldest(s: State, s': State, session: Session, credential: Credential, digest: string,
                          listed: seq<Session>, idle: int, maxActive: int)
    requires Keyed(s.sessions) && LoginCommits(s, s', session, credential, digest, listed, idle, maxActive)
    ensures s' == s.(sessions := s'.sessions)
    ensures forall id | id in s.sessions && s.sessions[id].session.identityId != session.identityId ::
              id in s'.sessions && s'.sessions[id] == s.sessions[id]
    ensures s.sessions.Keys <= s'.sessions.Keys
    ensures forall id | Changed(s, s', id) :: EvictedFor(s, s', session, idle, id)
    ensures forall id, other | Changed(s, s', id) && KeptUsable(s, s', session, idle, other) ::
              Newer(s.sessions[other].session, s.sessions[id].session)
  {
    var at, identityId := session.createdAt, session.identityId;
    var usable := UsableOf(listed, at, idle);
    var k := Kept(|usable|, maxActive);
    ListingUsable(s.sessions, identityId, at, idle, listed);
    forall id | id in s.sessions
      ensures EvictedOnly(s.sessions, s'.sessions, usable, k, at, id)
    {
      EvictedOne(s.sessions, identityId, at, idle, usable, k, id);
    }
    forall id, other | Changed(s, s', id) && KeptUsable(s, s', session, idle, other)
      ensures Newer(s.sessions[other].session, s.sessions[id].session)
    {
      assert EvictedOnly(s.sessions, s'.sessions, usable, k, at, other);
      assert EvictedOnly(s.sessions, s'.sessions, usable, k, at, id);
      var i :| k <= i < |usable| && usable[i] == s.sessions[id].session;
      var j :| 0 <= j < |usable| && usable[j] == s.sessions[other].session;
      assert j < k;
    }
  }

  ghost predicate Changed(s: State, s': State, id: ID) {
    id in s.sessions && id in s'.sessions && s'.sessions[id] != s.sessions[id]
  }

  /** A usable session of this identity, now ended by the login. */
  ghost predicate EvictedFor(s: State, s': State, session: Session, idle: int, id: ID)
    requires id in s.sessions && id in s'.sessions
  {
    var was := s.sessions[id].session;
    && was.identityId == session.identityId && Usable(was, session.createdAt, idle)
    && s'.sessions[id].session == was.(status := Ended, revokedAt := Some(session.createdAt)).Saved()
  }

  ghost predicate KeptUsable(s: State, s': State, session: Session, idle: int, id: ID) {
    && id in s.sessions && id in s'.sessions && s'.sessions[id] == s.sessions[id]
    && s.sessions[id].session.identityId == session.identityId && Usable(s.sessions[id].session, session.createdAt, idle)
  }

  ghost predicate EvictedOnly(before: map<ID, StoredSession>, after: map<ID, StoredSession>, usable: seq<Session>,
                              k: nat, at: int, id: ID)
    requires id in before && k <= |usable|
  {
    && id in after
    && (after[id] == before[id] ==> forall i | k <= i < |usable| :: usable[i].id != id)
    && (after[id] != before[id] ==>
          exists i :: k <= i < |usable| && usable[i] == before[id].session
                      && after[id].session == usable[i].(status := Ended, revokedAt := Some(at)).Saved())
  }

  lemma EvictedOne(sessions: map<ID, StoredSession>, identityId: ID, at: int, idle: int, usable: seq<Session>, k: nat, id: ID)
    requires Keyed(sessions) && UsableListing(sessions, identityId, at, idle, usable) && k <= |usable|
    requires RevokeAll(usable[k..], at).Ok? && id in sessions
    ensures EvictedOnly(sessions, WithSaved(sessions, RevokeAll(usable[k..], at).value), usable, k, at, id)
  {
    RevokeAllSpec(usable[k..], at);
    var evicted := RevokeAll(usable[k..], at).value;
    WithSavedFrame(sessions, evicted, id);
    var after := WithSaved(sessions, evicted);
    assert forall j | 0 <= j < |evicted| :: evicted[j] == usable[k + j].(status := Ended, revokedAt := Some(at));
    if after[id] == sessions[id] {
      forall i | k <= i < |usable|
        ensures usable[i].id != id
      {
        assert evicted[i - k].id == usable[i].id;
      }
    } else {
      var j :| 0 <= j < |evicted| && evicted[j].id == id
               && after[id] == StoredSession(evicted[j].Saved(), sessions[id].tokenDigest);
      assert usable[k + j].id == id;
    }
  }
}
