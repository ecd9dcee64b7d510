/**
 * The in-memory identity store and its writers: each one checks what it read against what is stored,
 * writes several maps, publishes its events, and undoes every write when a publication fails
 * (src/modules/identity/infra/in-memory/adapters.ts).
 */
module AccountStore {
  import opened Prelude
  import opened Ids
  import opened Accounts

  datatype StoredSession = StoredSession(session: Session, tokenDigest: string)

  datatype StoredChallenge = StoredChallenge(challenge: Challenge, tokenDigest: string)

  datatype State = State(
    identities: map<ID, Identity>,
    credentials: map<ID, Credential>,
    passwordHashes: map<ID, string>,
    challenges: map<ID, StoredChallenge>,
    sessions: map<ID, StoredSession>)

  /** `ofThisWork` is the answer of `assertEventWork`. */
  datatype Event = Event(id: ID, ofThisWork: bool)

  datatype StoreFailure =
    | AlreadyExists | EmailTaken | SessionExists | SessionNotFound | StaleWrite | ChallengeExists
    | ChallengeNotFound | IdentityNotFound | ProvenanceMismatch | PublishFailed

  // ----- What each commit checks and writes -----

  /** The first session of the list that is missing or was changed since it was read. */
  function EvictionProblem(sessions: map<ID, StoredSession>, evicted: seq<Session>): Option<StoreFailure> {
    if |evicted| == 0 then None
    else if evicted[0].id !in sessions then Some(SessionNotFound)
    else if sessions[evicted[0].id].session.version != evicted[0].version then Some(StaleWrite)
    else EvictionProblem(sessions, evicted[1..])
  }

  /** Store the given sessions over their previous selves, keeping the token digests. */
  function WithSaved(sessions: map<ID, StoredSession>, changed: seq<Session>): map<ID, StoredSession> {
    if |changed| == 0 then sessions
    else
      var before := WithSaved(sessions, changed[..|changed| - 1]);
      var session := changed[|changed| - 1];
      if session.id in before then
        before[session.id := StoredSession(session.Saved(), before[session.id].tokenDigest)]
      else before
  }

  function SessionCommit(s: State, session: Session, credential: Credential, digest: string, evicted: seq<Session>)
    : Result<State, StoreFailure>
  {
    if session.id in s.sessions then Err(SessionExists)
    else if
      || credential.id !in s.credentials
      || !s.credentials[credential.id].status.CredentialActive?
      || s.credentials[credential.id].updatedAt != credential.updatedAt
    then Err(StaleWrite)
    else
      match EvictionProblem(s.sessions, evicted)
      case Some(problem) => Err(problem)
      case None =>
        Ok(s.(sessions := WithSaved(s.sessions, evicted)[session.id := StoredSession(session.Saved(), digest)]))
  }

  predicate AllCurrent(sessions: map<ID, StoredSession>, listed: seq<Session>) {
    forall i | 0 <= i < |listed| ::
      listed[i].id in sessions && sessions[listed[i].id].session.version == listed[i].version
  }

  /** No active session of the identity is missing from the list. */
  predicate ListsAll(sessions: map<ID, StoredSession>, identityId: ID, listed: seq<Session>) {
    forall id | id in sessions && sessions[id].session.identityId == identityId && sessions[id].session.status.Live? ::
      exists i :: 0 <= i < |listed| && listed[i].id == id
  }

  function ResetCommit(s: State, challenge: Challenge, credential: Credential, previousUpdatedAt: int,
                       hash: string, identity: Option<Identity>, revoked: seq<Session>): Result<State, StoreFailure>
  {
    if
      || credential.id !in s.credentials
      || !s.credentials[credential.id].status.CredentialActive?
      || s.credentials[credential.id].updatedAt != previousUpdatedAt
    then Err(StaleWrite)
    else if challenge.id !in s.challenges || !s.challenges[challenge.id].challenge.purpose.PasswordReset? then Err(ChallengeNotFound)
    else if s.challenges[challenge.id].challenge.version != challenge.version then Err(StaleWrite)
    else if identity.Some? && identity.value.id !in s.identities then Err(IdentityNotFound)
    else if identity.Some? && s.identities[identity.value.id].version != identity.value.version then Err(StaleWrite)
    else if !AllCurrent(s.sessions, revoked) then Err(StaleWrite)
    else if !ListsAll(s.sessions, credential.identityId, revoked) then Err(StaleWrite)
    else
      Ok(State(
        if identity.Some? then s.identities[identity.value.id := identity.value.Saved()] else s.identities,
        s.credentials[credential.id := credential],
        s.passwordHashes[credential.id := hash],
        s.challenges[challenge.id := StoredChallenge(challenge.Saved(), s.challenges[challenge.id].tokenDigest)],
        WithSaved(s.sessions, revoked)))
  }

  function RevocationCommit(s: State, session: Session): Result<State, StoreFailure> {
    if session.id !in s.sessions then Err(SessionNotFound)
    else if s.sessions[session.id].session.version != session.version then Err(StaleWrite)
    else Ok(s.(sessions := WithSaved(s.sessions, [session])))
  }

  function VerificationCommit(s: State, identity: Identity, challenge: Challenge): Result<State, StoreFailure> {
    if identity.id !in s.identities then Err(IdentityNotFound)
    else if challenge.id !in s.challenges || s.challenges[challenge.id].challenge.identityId != identity.id then Err(ChallengeNotFound)
    else if s.identities[identity.id].version != identity.version
         || s.challenges[challenge.id].challenge.version != challenge.version then Err(StaleWrite)
    else
      Ok(s.(identities := s.identities[identity.id := identity.Saved()],
            challenges := s.challenges[challenge.id := StoredChallenge(challenge.Saved(), s.challenges[challenge.id].tokenDigest)]))
  }

  function ChallengeCommit(s: State, challenge: Challenge, digest: string): Result<State, StoreFailure> {
    if challenge.id in s.challenges then Err(ChallengeExists)
    else Ok(s.(challenges := s.challenges[challenge.id := StoredChallenge(challenge.Saved(), digest)]))
  }

  function RegistrationCommit(s: State, identity: Identity, credential: Credential, hash: string): Result<State, StoreFailure> {
    if identity.id in s.identities then Err(AlreadyExists)
    else if exists id :: id in s.credentials && s.credentials[id].email == credential.email then Err(EmailTaken)
    else
      Ok(s.(identities := s.identities[identity.id := identity.Saved()],
            credentials := s.credentials[credential.id := credential],
            passwordHashes := s.passwordHashes[credential.id := hash]))
  }

  function RecordActivity(s: State, sessionId: ID, at: Date): State {
    if sessionId in s.sessions then
      var stored := s.sessions[sessionId];
      s.(sessions := s.sessions[sessionId := stored.(session := Seen(stored.session, at))])
    else s
  }

  predicate Prunable(session: Session, endedBefore: int, idleBefore: int) {
    || (session.revokedAt.Some? && session.revokedAt.value < endedBefore)
    || session.expiresAt < endedBefore
    || session.lastSeenAt < idleBefore
  }

  // ----- Undoing a write -----

  /** What `restorer` remembers of a map entry. */
  datatype Saved<V> = Saved(key: ID, previous: Option<V>)

  function Remember<V>(m: map<ID, V>, keys: seq<ID>): seq<Saved<V>> {
    seq(|keys|, i requires 0 <= i < |keys| => Saved(keys[i], if keys[i] in m then Some(m[keys[i]]) else None))
  }

  /** Run the remembered restorations one after another. */
  function Undone<V>(m: map<ID, V>, saved: seq<Saved<V>>): map<ID, V>
    decreases |saved|
  {
    if |saved| == 0 then m
    else
      var first := saved[0];
      Undone(if first.previous.Some? then m[first.key := first.previous.value] else m - {first.key}, saved[1..])
  }

  /** Restoring remembered entries puts back the exact map, if nothing else was written; repeated keys do no harm. */
  lemma {:induction false} UndoneRestores<V>(before: map<ID, V>, after: map<ID, V>, keys: seq<ID>)
    requires forall k | k !in keys :: (k in after <==> k in before) && (k in before ==> after[k] == before[k])
    ensures Undone(after, Remember(before, keys)) == before
    decreases |keys|
  {
    if |keys| > 0 {
      var saved := Remember(before, keys);
      var first := saved[0];
      var next := if first.previous.Some? then after[first.key := first.previous.value] else after - {first.key};
      assert saved[1..] == Remember(before, keys[1..]);
      assert forall k | k !in keys[1..] :: k in keys ==> k == keys[0];
      UndoneRestores(before, next, keys[1..]);
    } else {
      assert after == before;
    }
  }

  /** Saving a list of changed sessions: the others stay, each listed one becomes some listed change of it. */
  lemma {:induction false} WithSavedFrame(sessions: map<ID, StoredSession>, changed: seq<Session>, id: ID)
    ensures id in WithSaved(sessions, changed) <==> id in sessions
    ensures id in sessions ==>
      var after := WithSaved(sessions, changed)[id];
      || (after == sessions[id] && forall i | 0 <= i < |changed| :: changed[i].id != id)
      || exists j :: 0 <= j < |changed| && changed[j].id == id
                     && after == StoredSession(changed[j].Saved(), sessions[id].tokenDigest)
    decreases |changed|
  {
    if |changed| > 0 {
      var n := |changed| - 1;
      WithSavedFrame(sessions, changed[..n], id);
      WithSavedFrame(sessions, changed[..n], changed[n].id);
      assert forall i | 0 <= i < n :: changed[..n][i] == changed[i];
      if id in sessions && id == changed[n].id {
        assert WithSaved(sessions, changed)[id] == StoredSession(changed[n].Saved(), sessions[id].tokenDigest);
      }
    }
  }

  /** Undoing the saving of a list of sessions. */
  lemma SavedRestores(sessions: map<ID, StoredSession>, changed: seq<Session>, keys: seq<ID>)
    requires |keys| == |changed| && forall j | 0 <= j < |changed| :: keys[j] == changed[j].id
    ensures Undone(WithSaved(sessions, changed), Remember(sessions, keys)) == sessions
  {
    var after := WithSaved(sessions, changed);
    forall k | k !in keys ensures (k in after <==> k in sessions) && (k in sessions ==> after[k] == sessions[k]) {
      WithSavedFrame(sessions, changed, k);
      assert forall j | 0 <= j < |changed| :: keys[j] == changed[j].id;
    }
    UndoneRestores(sessions, after, keys);
  }

  // ----- The store -----

  /** How many publications succeed before the first one that fails. */
  function Published(answers: seq<bool>): (n: nat)
    ensures n <= |answers|
    ensures forall i | 0 <= i < n :: answers[i]
    ensures n < |answers| ==> !answers[n]
  {
    if |answers| == 0 || !answers[0] then 0 else 1 + Published(answers[1..])
  }

  predicate AllOfThisWork(events: seq<Event>) {
    forall i | 0 <= i < |events| :: events[i].ofThisWork
  }

  /** The whole effect of a commit, given what its checks decide: all or nothing on the five maps. */
  predicate Outcome(was: State, wasEvents: seq<Event>, now: State, nowEvents: seq<Event>,
                    checked: Result<State, StoreFailure>, announced: seq<Event>, answers: seq<bool>,
                    r: Result<(), StoreFailure>)
    requires |answers| == |announced|
  {
    if checked.Err? then
      r == Err(checked.error) && now == was && nowEvents == wasEvents
    else if !AllOfThisWork(announced) then
      r == Err(ProvenanceMismatch) && now == was && nowEvents == wasEvents
    else if Published(answers) == |announced| then
      r == Ok(()) && now == checked.value && nowEvents == wasEvents + announced
    else
      // Events already handed on cannot be withdrawn; every map is as it was.
      r == Err(PublishFailed) && now == was && nowEvents == wasEvents + announced[..Published(answers)]
  }

  class Store {
    var identities: map<ID, Identity>
    var credentials: map<ID, Credential>
    var passwordHashes: map<ID, string>
    var challenges: map<ID, StoredChallenge>
    var sessions: map<ID, StoredSession>
    var events: seq<Event>

    ghost function View(): State
      reads this
    {
      State(identities, credentials, passwordHashes, challenges, sessions)
    }

    constructor ()
      ensures View() == State(map[], map[], map[], map[], map[]) && events == []
    {
      identities, credentials, passwordHashes, challenges, sessions := map[], map[], map[], map[], map[];
      events := [];
    }

    /** Publish in order; a refused event is taken out again and ends the loop. */
    method Announce(announced: seq<Event>, answers: seq<bool>) returns (ok: bool)
      requires |answers| == |announced|
      modifies this`events
      ensures ok <==> Published(answers) == |announced|
      ensures events == old(events) + announced[..Published(answers)]
    {
      var i := 0;
      while i < |announced|
        invariant 0 <= i <= |announced|
        invariant Published(answers) == i + Published(answers[i..])
        invariant events == old(events) + announced[..i]
      {
        events := events + [announced[i]];
        if !answers[i] {
          events := events[..|events| - 1];
          return false;
        }
        assert answers[i..][1..] == answers[i + 1..];
        i := i + 1;
      }
      ok := true;
    }

    method CommitSession(session: Session, credential: Credential, digest: string, event: Event,
                         evicted: seq<(Session, Event)>, answers: seq<bool>)
      returns (r: Result<(), StoreFailure>)
      requires |answers| == |evicted| + 1
      modifies this
      ensures Outcome(old(View()), old(events), View(), events, SessionCommit(old(View()), session, credential, digest, Firsts(evicted)),
                        Seconds(evicted) + [event], answers, r)
    {
      if session.id in sessions {
        return Err(SessionExists);
      }
      if
        || credential.id !in credentials || !credentials[credential.id].status.CredentialActive?
        || credentials[credential.id].updatedAt != credential.updatedAt
      {
        return Err(StaleWrite);
      }
      var i := 0;
      while i < |evicted|
        invariant 0 <= i <= |evicted|
        invariant EvictionProblem(sessions, Firsts(evicted)) == EvictionProblem(sessions, Firsts(evicted)[i..])
      {
        var old' := evicted[i].0;
        assert Firsts(evicted)[i..][1..] == Firsts(evicted)[i + 1..];
        if old'.id !in sessions {
          return Err(SessionNotFound);
        }
        if sessions[old'.id].session.version != old'.version {
          return Err(StaleWrite);
        }
        i := i + 1;
      }
      var announced := Seconds(evicted) + [event];
      if !AllOfThisWork(announced) {
        return Err(ProvenanceMismatch);
      }
      var keys := [session.id] + seq(|evicted|, k requires 0 <= k < |evicted| => evicted[k].0.id);
      var undo := Remember(sessions, keys);
      ghost var before := sessions;
      sessions := WithSaved(sessions, Firsts(evicted));
      sessions := sessions[session.id := StoredSession(session.Saved(), digest)];
      var ok := Announce(announced, answers);
      if !ok {
        forall k | k !in keys
          ensures (k in sessions <==> k in before) && (k in before ==> sessions[k] == before[k])
        {
          WithSavedFrame(before, Firsts(evicted), k);
          assert forall j | 0 <= j < |evicted| :: keys[j + 1] == Firsts(evicted)[j].id;
        }
        UndoneRestores(before, sessions, keys);
        sessions := Undone(sessions, undo);
        return Err(PublishFailed);
      }
      r := Ok(());
    }

    method CommitReset(challenge: Challenge, credential: Credential, previousUpdatedAt: int, hash: string,
                       identity: Option<Identity>, revoked: seq<Session>, announced: seq<Event>, answers: seq<bool>)
      returns (r: Result<(), StoreFailure>)
      requires |answers| == |announced|
      modifies this
      ensures Outcome(old(View()), old(events), View(), events, ResetCommit(old(View()), challenge, credential, previousUpdatedAt, hash, identity, revoked),
                        announced, answers, r)
    {
      if
        || credential.id !in credentials || !credentials[credential.id].status.CredentialActive?
        || credentials[credential.id].updatedAt != previousUpdatedAt
      {
        return Err(StaleWrite);
      }
      if challenge.id !in challenges || !challenges[challenge.id].challenge.purpose.PasswordReset? {
        return Err(ChallengeNotFound);
      }
      if challenges[challenge.id].challenge.version != challenge.version {
        return Err(StaleWrite);
      }
      if identity.Some? {
        if identity.value.id !in identities {
          return Err(IdentityNotFound);
        }
        if identities[identity.value.id].version != identity.value.version {
          return Err(StaleWrite);
        }
      }
      if !AllCurrent(sessions, revoked) || !ListsAll(sessions, credential.identityId, revoked) {
        return Err(StaleWrite);
      }
      if !AllOfThisWork(announced) {
        return Err(ProvenanceMismatch);
      }
      var sessionKeys := seq(|revoked|, k requires 0 <= k < |revoked| => revoked[k].id);
      var identityKeys := if identity.Some? then [identity.value.id] else [];
      ghost var was := View();
      var undoCredentials := Remember(credentials, [credential.id]);
      var undoHashes := Remember(passwordHashes, [credential.id]);
      var undoChallenges := Remember(challenges, [challenge.id]);
      var undoIdentities := Remember(identities, identityKeys);
      var undoSessions := Remember(sessions, sessionKeys);
      credentials := credentials[credential.id := credential];
      passwordHashes := passwordHashes[credential.id := hash];
      challenges := challenges[challenge.id := StoredChallenge(challenge.Saved(), challenges[challenge.id].tokenDigest)];
      if identity.Some? {
        identities := identities[identity.value.id := identity.value.Saved()];
      }
      sessions := WithSaved(sessions, revoked);
      var ok := Announce(announced, answers);
      if !ok {
        UndoneRestores(was.credentials, credentials, [credential.id]);
        UndoneRestores(was.passwordHashes, passwordHashes, [credential.id]);
        UndoneRestores(was.challenges, challenges, [challenge.id]);
        UndoneRestores(was.identities, identities, identityKeys);
        SavedRestores(was.sessions, revoked, sessionKeys);
        credentials := Undone(credentials, undoCredentials);
        passwordHashes := Undone(passwordHashes, undoHashes);
        challenges := Undone(challenges, undoChallenges);
        identities := Undone(identities, undoIdentities);
        sessions := Undone(sessions, undoSessions);
        return Err(PublishFailed);
      }
      r := Ok(());
    }

    method CommitRevocation(session: Session, event: Event, answer: bool) returns (r: Result<(), StoreFailure>)
      modifies this
      ensures Outcome(old(View()), old(events), View(), events, RevocationCommit(old(View()), session), [event], [answer], r)
    {
      if session.id !in sessions {
        return Err(SessionNotFound);
      }
      if sessions[session.id].session.version != session.version {
        return Err(StaleWrite);
      }
      assert [event][0] == event;
      if !event.ofThisWork {
        return Err(ProvenanceMismatch);
      }
      ghost var before := sessions;
      var undo := Remember(sessions, [session.id]);
      assert WithSaved(sessions, [session][..0]) == sessions;
      sessions := sessions[session.id := StoredSession(session.Saved(), sessions[session.id].tokenDigest)];
      var ok := Announce([event], [answer]);
      if !ok {
        UndoneRestores(before, sessions, [session.id]);
        sessions := Undone(sessions, undo);
        return Err(PublishFailed);
      }
      r := Ok(());
    }

    /** Recording use is not an event and never conflicts: it keeps the stored version. */
    method RecordSessionActivity(sessionId: ID, at: Date)
      modifies this`sessions
      ensures View() == RecordActivity(old(View()), sessionId, at)
    {
      if sessionId in sessions {
        var stored := sessions[sessionId];
        sessions := sessions[sessionId := stored.(session := Seen(stored.session, at))];
      }
    }
  }

  function Firsts(evicted: seq<(Session, Event)>): seq<Session> {
    seq(|evicted|, i requires 0 <= i < |evicted| => evicted[i].0)
  }

  function Seconds(evicted: seq<(Session, Event)>): seq<Event> {
    seq(|evicted|, i requires 0 <= i < |evicted| => evicted[i].1)
  }
}
