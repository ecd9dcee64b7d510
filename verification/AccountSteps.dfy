/**
 * What each account command demands and writes, field by field, in every run; and that it succeeds when nobody
 * interferes (src/modules/identity/app/commands, src/modules/identity/domain, src/modules/identity/infra/in-memory/adapters.ts).
 */
module AccountSteps {
  import opened Prelude
  import opened Ids
  import opened Accounts
  import opened AccountStore
  import opened Logins
  import opened AccountRuns

  lemma StepIs(run: seq<World>, steps: seq<Step>, c: Config, i: nat)
    requires Run(run, steps, c) && i < |steps|
    ensures Enabled(run, i, steps[i], c) && run[i + 1] == Next(run, i, steps[i], c)
  {
  }

  // ----- Challenges only ever move from issued to consumed -----

  /** What was stored is stored still: unchanged under the same version, else under a greater one. */
  ghost predicate ChallengesGrown(a: State, b: State) {
    forall id | id in a.challenges ::
      && id in b.challenges && a.challenges[id].challenge.version <= b.challenges[id].challenge.version
      && (a.challenges[id].challenge.version == b.challenges[id].challenge.version ==> b.challenges[id] == a.challenges[id])
  }

  lemma StepGrowsChallenges(run: seq<World>, i: nat, s: Step, c: Config)
    requires i < |run| && Enabled(run, i, s, c)
    ensures ChallengesGrown(run[i].store, Next(run, i, s, c).store)
  {
  }

  lemma GrownOn(a: State, b: State, d: State)
    requires ChallengesGrown(a, b) && ChallengesGrown(b, d)
    ensures ChallengesGrown(a, d)
  {
  }

  lemma {:induction false} ChainGrows(run: seq<World>, i: nat, k: nat)
    requires i <= k < |run|
    requires forall j | i <= j < k :: ChallengesGrown(run[j].store, run[j + 1].store)
    ensures ChallengesGrown(run[i].store, run[k].store)
    decreases k
  {
    if i < k {
      ChainGrows(run, i, k - 1);
      assert ChallengesGrown(run[k - 1].store, run[k - 1 + 1].store);
      GrownOn(run[i].store, run[k - 1].store, run[k].store);
    }
  }

  lemma RunGrowsChallenges(run: seq<World>, steps: seq<Step>, c: Config, i: nat, k: nat)
    requires Run(run, steps, c) && i <= k < |run|
    ensures ChallengesGrown(run[i].store, run[k].store)
  {
    forall j | i <= j < k ensures ChallengesGrown(run[j].store, run[j + 1].store) {
      StepIs(run, steps, c, j);
      StepGrowsChallenges(run, j, steps[j], c);
    }
    ChainGrows(run, i, k);
  }

  /** Both states are sound, and credentials have only moved on from one to the other. */
  lemma StatesFit(run: seq<World>, steps: seq<Step>, c: Config, i: nat, k: nat)
    requires Run(run, steps, c) && i <= k < |run|
    ensures CredentialsFit(run[i].store) && CredentialsFit(run[k].store) && Grown(run[i].store, run[k].store)
    ensures Versioned(run[i].store) && Versioned(run[k].store)
    ensures forall id | id in run[k].store.sessions :: run[k].store.sessions[id].session.id == id
  {
    RunFit(run, steps, c, k);
    assert Fit(run[i], c) && Fit(run[k], c);
  }

  // ----- Password reset -----

  /** The challenge as it is stored once it is spent. */
  function Spent(stored: StoredChallenge, at: int): StoredChallenge {
    StoredChallenge(stored.challenge.(status := Consumed, consumedAt := Some(at), version := stored.challenge.version + 1),
                    stored.tokenDigest)
  }

  /** Issued for this purpose, and its lifetime holds this moment. */
  ghost predicate SpendableAt(s: State, id: ID, purpose: Purpose, at: int) {
    && id in s.challenges && s.challenges[id].challenge.status == Issued && s.challenges[id].challenge.purpose == purpose
    && s.challenges[id].challenge.issuedAt <= at && at < s.challenges[id].challenge.expiresAt
  }

  lemma ResetSpendsAt(now: State, next: State, found: State, record: State, listing: State, s: Step)
    requires s.Reset? && CanReset(found, record, listing, s) && ResetResult(now, found, record, s) == Ok(next)
    requires ChallengesGrown(found, now) && Versioned(found)
    ensures SpendableAt(now, s.challengeId, PasswordReset, s.at)
    ensures next.challenges == now.challenges[s.challengeId := Spent(now.challenges[s.challengeId], s.at)]
    ensures record.credentials[s.credentialId].identityId == now.challenges[s.challengeId].challenge.identityId
  {
  }

  lemma ResetRuns(run: seq<World>, steps: seq<Step>, c: Config, i: nat)
    requires Run(run, steps, c) && i < |steps| && steps[i].Reset? && run[i + 1] != run[i]
    ensures
      var s := steps[i];
      && s.challengeAt <= i && s.recordAt <= i && s.listedAt <= i
      && CanReset(run[s.challengeAt].store, run[s.recordAt].store, run[s.listedAt].store, s)
      && ResetResult(run[i].store, run[s.challengeAt].store, run[s.recordAt].store, s) == Ok(run[i + 1].store)
  {
    StepIs(run, steps, c, i);
  }

  /** A reset takes effect only on an issued reset challenge, from its issue until just before it expires, and spends it. */
  lemma ResetSpends(run: seq<World>, steps: seq<Step>, c: Config, i: nat)
    requires Run(run, steps, c) && i < |steps| && steps[i].Reset? && run[i + 1] != run[i]
    ensures
      var s, now, next := steps[i], run[i].store, run[i + 1].store;
      && SpendableAt(now, s.challengeId, PasswordReset, s.at)
      && next.challenges == now.challenges[s.challengeId := Spent(now.challenges[s.challengeId], s.at)]
  {
    var s := steps[i];
    ResetRuns(run, steps, c, i);
    StatesFit(run, steps, c, s.challengeAt, i);
    RunGrowsChallenges(run, steps, c, s.challengeAt, i);
    ResetSpendsAt(run[i].store, run[i + 1].store, run[s.challengeAt].store, run[s.recordAt].store, run[s.listedAt].store, s);
  }

  /** The identity as it is stored once it is verified. */
  function Verified(identity: Identity, at: int): Identity {
    identity.(status := IdentityActive, updatedAt := at, verifiedAt := Some(at), version := identity.version + 1)
  }

  lemma ResetWritesAt(now: State, next: State, found: State, record: State, listing: State, s: Step)
    requires s.Reset? && CanReset(found, record, listing, s) && ResetResult(now, found, record, s) == Ok(next)
    requires s.credentialId in now.credentials && now.credentials[s.credentialId] == record.credentials[s.credentialId]
    requires now.credentials[s.credentialId].id == s.credentialId
    ensures now.credentials[s.credentialId].status == CredentialActive && now.credentials[s.credentialId].updatedAt < s.at
    ensures next.credentials == now.credentials[s.credentialId := now.credentials[s.credentialId].(updatedAt := s.at)]
    ensures next.passwordHashes == now.passwordHashes[s.credentialId := s.hash]
    ensures
      var id := record.credentials[s.credentialId].identityId;
      && id in record.identities
      && if record.identities[id].status == PendingVerification then
           next.identities == now.identities[record.identities[id].id := Verified(record.identities[id], s.at)]
         else record.identities[id].status == IdentityActive && next.identities == now.identities
  {
  }

  lemma ResetSignsOut(now: State, next: State, found: State, record: State, listing: State, s: Step)
    requires s.Reset? && CanReset(found, record, listing, s) && ResetResult(now, found, record, s) == Ok(next)
    requires forall id | id in now.sessions :: now.sessions[id].session.id == id
    ensures next.sessions.Keys == now.sessions.Keys
    ensures forall id | id in next.sessions && next.sessions[id].session.identityId == record.credentials[s.credentialId].identityId ::
              next.sessions[id].session.status == Ended
  {
    ResetEndsAll(now, next, found, record, listing, s);
    forall id ensures id in next.sessions <==> id in now.sessions {
      WithSavedFrame(now.sessions, RevokeAll(s.listed, s.at).value, id);
    }
  }

  /** It gives the credential of that challenge's identity the new hash and the time of the reset, and ends every live
      session of the identity. */
  lemma ResetWrites(run: seq<World>, steps: seq<Step>, c: Config, i: nat)
    requires Run(run, steps, c) && i < |steps| && steps[i].Reset? && run[i + 1] != run[i]
    ensures
      var s, now, next := steps[i], run[i].store, run[i + 1].store;
      && s.credentialId in now.credentials && s.challengeId in now.challenges
      && var credential := now.credentials[s.credentialId];
      && credential.identityId == now.challenges[s.challengeId].challenge.identityId
      && credential.status == CredentialActive && credential.updatedAt < s.at
      && next.credentials == now.credentials[s.credentialId := credential.(updatedAt := s.at)]
      && next.passwordHashes == now.passwordHashes[s.credentialId := s.hash]
      && (forall id | id in next.sessions && next.sessions[id].session.identityId == credential.identityId ::
            next.sessions[id].session.status == Ended)
      && var record := run[s.recordAt].store;
      && credential.identityId in record.identities
      && if record.identities[credential.identityId].status == PendingVerification then
           next.identities == now.identities[credential.identityId := Verified(record.identities[credential.identityId], s.at)]
         else record.identities[credential.identityId].status == IdentityActive && next.identities == now.identities
  {
    var s := steps[i];
    var now, next := run[i].store, run[i + 1].store;
    var found, record, listing := run[s.challengeAt].store, run[s.recordAt].store, run[s.listedAt].store;
    ResetRuns(run, steps, c, i);
    StatesFit(run, steps, c, s.recordAt, i);
    StatesFit(run, steps, c, s.challengeAt, i);
    RunGrowsChallenges(run, steps, c, s.challengeAt, i);
    ResetCredentials(now, next, found, record, listing, s);
    ResetSpendsAt(now, next, found, record, listing, s);
    ResetWritesAt(now, next, found, record, listing, s);
    ResetSignsOut(now, next, found, record, listing, s);
  }

  /** A secret changes only on an active credential, and strictly after its last change. */
  lemma SecretChangedIff(c: Credential, at: Date)
    ensures ChangeSecret(c, at).Ok? <==> at.At? && c.updatedAt < at.ms && c.status == CredentialActive
    ensures ChangeSecret(c, at).Ok? ==> ChangeSecret(c, at).value == c.(updatedAt := at.ms)
  {
  }

  lemma {:induction false} RevocableAll(list: seq<Session>, at: int)
    requires forall i | 0 <= i < |list| :: list[i].status == Live && list[i].createdAt <= at
    ensures RevokeAll(list, at).Ok?
    decreases |list|
  {
    if list != [] { RevocableAll(list[..|list| - 1], at); }
  }

  lemma {:induction false} RevokedSame(list: seq<Session>, at: int)
    requires RevokeAll(list, at).Ok?
    ensures |RevokeAll(list, at).value| == |list|
    ensures forall i | 0 <= i < |list| ::
      RevokeAll(list, at).value[i] == list[i].(status := Ended, revokedAt := Some(at))
    decreases |list|
  {
    if list != [] { RevokedSame(list[..|list| - 1], at); }
  }

  /** Undisturbed, a reset with an issued challenge inside its lifetime goes through. */
  lemma FreshResetCommits(run: seq<World>, i: nat, s: Step, c: Config)
    requires i < |run| && Fit(run[i], c) && s.Reset? && s.challengeAt == s.recordAt == s.listedAt == i
    requires var now := run[i].store;
      && s.challengeId in now.challenges && s.credentialId in now.credentials
      && var ch, cr := now.challenges[s.challengeId].challenge, now.credentials[s.credentialId];
      && ch.status == Issued && ch.purpose == PasswordReset && ch.issuedAt <= s.at < ch.expiresAt
      && cr.identityId == ch.identityId && cr.status == CredentialActive && cr.updatedAt < s.at
      && (now.identities[cr.identityId].status == IdentityActive
          || (now.identities[cr.identityId].status == PendingVerification && now.identities[cr.identityId].updatedAt <= s.at))
      && IsListing(now.sessions, cr.identityId, s.listed)
      && forall k | 0 <= k < |s.listed| :: s.listed[k].createdAt <= s.at
    ensures Enabled(run, i, s, c) && Next(run, i, s, c).resets == run[i].resets + [s.challengeId]
  {
    var now := run[i].store;
    RevocableAll(s.listed, s.at);
    RevokedSame(s.listed, s.at);
    var revoked := RevokeAll(s.listed, s.at).value;
    assert CanReset(now, now, now, s);
    ListedAreCurrent(now, now.credentials[s.credentialId].identityId, s.listed, revoked);
    assert ResetResult(now, now, now, s).Ok?;
  }

  lemma ListedAreCurrent(now: State, identityId: ID, listed: seq<Session>, revoked: seq<Session>)
    requires forall id | id in now.sessions :: now.sessions[id].session.id == id
    requires IsListing(now.sessions, identityId, listed) && |revoked| == |listed|
    requires forall i | 0 <= i < |listed| :: revoked[i].id == listed[i].id && revoked[i].version == listed[i].version
    ensures AllCurrent(now.sessions, revoked) && ListsAll(now.sessions, identityId, revoked)
  {
    forall i | 0 <= i < |revoked|
      ensures revoked[i].id in now.sessions && now.sessions[revoked[i].id].session.version == revoked[i].version
    {
      assert IsLiveOf(now.sessions, identityId, listed[i]);
    }
    forall id | id in now.sessions && now.sessions[id].session.identityId == identityId && now.sessions[id].session.status.Live?
      ensures exists i :: 0 <= i < |revoked| && revoked[i].id == id
    {
      assert IsLiveOf(now.sessions, identityId, now.sessions[id].session);
      var i :| 0 <= i < |listed| && listed[i] == now.sessions[id].session;
      assert revoked[i].id == id;
    }
  }

  // ----- E-mail verification -----

  lemma VerifySpendsAt(now: State, w: World, found: State, record: State, s: Step)
    requires s.VerifyEmail? && CanVerify(found, record, s) && w.store == now
    requires ChallengesGrown(found, now) && Versioned(found) && CredentialsFit(record)
    requires AccountRuns.Verified(w, found, record, s) != w
    ensures SpendableAt(now, s.challengeId, EmailVerification, s.at)
    ensures
      var next := AccountRuns.Verified(w, found, record, s).store;
      var id := now.challenges[s.challengeId].challenge.identityId;
      && id in record.identities && record.identities[id].status == PendingVerification && record.identities[id].updatedAt <= s.at
      && next.challenges == now.challenges[s.challengeId := Spent(now.challenges[s.challengeId], s.at)]
      && next.identities == now.identities[id := Verified(record.identities[id], s.at)]
      && next.credentials == now.credentials && next.passwordHashes == now.passwordHashes && next.sessions == now.sessions
  {
  }

  /** A verification takes effect only on an issued verification challenge inside its lifetime, spends it, and activates
      the pending identity it was issued for; no reset challenge verifies an address. */
  lemma VerifySpends(run: seq<World>, steps: seq<Step>, c: Config, i: nat)
    requires Run(run, steps, c) && i < |steps| && steps[i].VerifyEmail? && run[i + 1] != run[i]
    ensures
      var s, now, next := steps[i], run[i].store, run[i + 1].store;
      && SpendableAt(now, s.challengeId, EmailVerification, s.at)
      && next.challenges == now.challenges[s.challengeId := Spent(now.challenges[s.challengeId], s.at)]
      && var id, record := now.challenges[s.challengeId].challenge.identityId, run[s.recordAt].store;
      && id in record.identities && record.identities[id].status == PendingVerification
      && next.identities == now.identities[id := Verified(record.identities[id], s.at)]
  {
    var s := steps[i];
    StepIs(run, steps, c, i);
    StatesFit(run, steps, c, s.challengeAt, i);
    StatesFit(run, steps, c, s.recordAt, i);
    RunGrowsChallenges(run, steps, c, s.challengeAt, i);
    VerifySpendsAt(run[i].store, run[i], run[s.challengeAt].store, run[s.recordAt].store, s);
  }

  /** Undisturbed, a verification with an issued challenge inside its lifetime goes through. */
  lemma FreshVerifyCommits(run: seq<World>, i: nat, s: Step, c: Config)
    requires i < |run| && Fit(run[i], c) && s.VerifyEmail? && s.challengeAt == s.recordAt == i
    requires SpendableAt(run[i].store, s.challengeId, EmailVerification, s.at)
    requires
      var id := run[i].store.challenges[s.challengeId].challenge.identityId;
      && id in run[i].store.identities && run[i].store.identities[id].status == PendingVerification
      && run[i].store.identities[id].updatedAt <= s.at
    ensures Enabled(run, i, s, c)
    ensures Next(run, i, s, c).store.challenges
         == run[i].store.challenges[s.challengeId := Spent(run[i].store.challenges[s.challengeId], s.at)]
  {
  }

  // ----- Login and logout -----

  lemma LoginWritesAt(w: World, record: State, listing: State, s: Step, c: Config)
    requires s.Login? && CanLogin(record, listing, s, c) && LoggedIn(w, record, listing, s, c) != w
    ensures
      var now, next := w.store, LoggedIn(w, record, listing, s, c).store;
      && s.credentialId in record.credentials && s.credentialId in record.passwordHashes
      && var credential := record.credentials[s.credentialId];
      && c.verify(s.password, record.passwordHashes[s.credentialId])
      && credential.status == CredentialActive && credential.identityId in record.identities
      && record.identities[credential.identityId].status == IdentityActive
      && s.createdAt < s.expiresAt && s.sessionId !in now.sessions
      && s.sessionId in next.sessions
      && next.sessions[s.sessionId]
         == StoredSession(Session(s.sessionId, credential.identityId, Live, s.createdAt, s.expiresAt, s.createdAt, None, 1), s.digest)
      && credential.id in now.credentials && now.credentials[credential.id].status == CredentialActive
      && now.credentials[credential.id].updatedAt == credential.updatedAt
  {
  }

  /** A login takes effect only for a verified password of an active credential and identity, and only if that credential
      is still active and unchanged; the session it opens is live from now until it expires. */
  lemma LoginWrites(run: seq<World>, steps: seq<Step>, c: Config, i: nat)
    requires Run(run, steps, c) && i < |steps| && steps[i].Login? && run[i + 1] != run[i]
    ensures
      var s, now, next, record := steps[i], run[i].store, run[i + 1].store, run[steps[i].recordAt].store;
      && s.credentialId in record.credentials && s.credentialId in record.passwordHashes
      && var credential := record.credentials[s.credentialId];
      && c.verify(s.password, record.passwordHashes[s.credentialId])
      && credential.status == CredentialActive && credential.identityId in record.identities
      && record.identities[credential.identityId].status == IdentityActive
      && s.createdAt < s.expiresAt && s.sessionId !in now.sessions && s.sessionId in next.sessions
      && next.sessions[s.sessionId]
         == StoredSession(Session(s.sessionId, credential.identityId, Live, s.createdAt, s.expiresAt, s.createdAt, None, 1), s.digest)
      && s.credentialId in now.credentials && now.credentials[s.credentialId].status == CredentialActive
      && now.credentials[s.credentialId].updatedAt == credential.updatedAt
  {
    var s := steps[i];
    StepIs(run, steps, c, i);
    StatesFit(run, steps, c, s.recordAt, i);
    LoginWritesAt(run[i], run[s.recordAt].store, run[s.listedAt].store, s, c);
  }

  lemma {:induction false} NoProblem(sessions: map<ID, StoredSession>, evicted: seq<Session>)
    requires forall k | 0 <= k < |evicted| ::
      evicted[k].id in sessions && sessions[evicted[k].id].session.version == evicted[k].version
    ensures EvictionProblem(sessions, evicted).None?
    decreases |evicted|
  {
    if evicted != [] { NoProblem(sessions, evicted[1..]); }
  }

  /** Undisturbed, the right password opens the session. */
  lemma FreshLoginCommits(run: seq<World>, i: nat, s: Step, c: Config)
    requires i < |run| && Fit(run[i], c) && s.Login? && s.recordAt == s.listedAt == i
    requires var now := run[i].store;
      && s.credentialId in now.credentials && s.credentialId in now.passwordHashes
      && var cr := now.credentials[s.credentialId];
      && c.verify(s.password, now.passwordHashes[s.credentialId]) && cr.status == CredentialActive
      && now.identities[cr.identityId].status == IdentityActive
      && s.createdAt < s.expiresAt && s.sessionId !in now.sessions
      && IsListing(now.sessions, cr.identityId, s.listed)
      && forall k | 0 <= k < |s.listed| :: s.listed[k].createdAt <= s.createdAt
    ensures Enabled(run, i, s, c) && s.sessionId in Next(run, i, s, c).store.sessions
  {
    var now := run[i].store;
    var identityId := now.credentials[s.credentialId].identityId;
    var usable := UsableOf(s.listed, s.createdAt, c.idleTimeoutMs);
    var gone := usable[Kept(|usable|, c.maxActive)..];
    UsableOfSpec(s.listed, s.createdAt, c.idleTimeoutMs);
    forall k | 0 <= k < |gone| ensures gone[k] in s.listed && IsLiveOf(now.sessions, identityId, gone[k]) {
      assert gone[k] in usable;
    }
    RevocableAll(gone, s.createdAt);
    RevokedSame(gone, s.createdAt);
    var evicted := RevokeAll(gone, s.createdAt).value;
    assert CanLogin(now, now, s, c);
    forall k | 0 <= k < |evicted| ensures evicted[k].id in now.sessions && now.sessions[evicted[k].id].session.version == evicted[k].version {
      assert IsLiveOf(now.sessions, identityId, gone[k]);
    }
    NoProblem(now.sessions, evicted);
  }

  /** A session can be used while it is live, before it expires, and as long as its last use is not too long ago. */
  lemma UsableIs(session: Session, at: int, idle: int)
    ensures Usable(session, at, idle) <==> session.status == Live && at < session.expiresAt && at - session.lastSeenAt < idle
  {
  }

  /** Logins evict from the earliest opened: a usable session of the identity that a login leaves was not opened before any
      that it ends. */
  lemma EvictsEarliest(s: State, s': State, session: Session, credential: Credential, digest: string, listed: seq<Session>,
                       idle: int, maxActive: int, gone: ID, kept: ID)
    requires Keyed(s.sessions) && LoginCommits(s, s', session, credential, digest, listed, idle, maxActive)
    requires gone in s.sessions && gone in s'.sessions && s'.sessions[gone] != s.sessions[gone]
    requires kept in s.sessions && kept in s'.sessions && s'.sessions[kept] == s.sessions[kept]
    requires
      var other := s.sessions[kept].session;
      other.identityId == session.identityId && other.status == Live && session.createdAt < other.expiresAt
      && session.createdAt - other.lastSeenAt < idle
    ensures s.sessions[gone].session.createdAt <= s.sessions[kept].session.createdAt
    ensures s.sessions[gone].session.identityId == session.identityId
    ensures s'.sessions[gone].session.status == Ended && s'.sessions[gone].session.revokedAt == Some(session.createdAt)
  {
    LoginEvictsOldest(s, s', session, credential, digest, listed, idle, maxActive);
    UsableIs(s.sessions[kept].session, session.createdAt, idle);
    assert KeptUsable(s, s', session, idle, kept) && Changed(s, s', gone);
  }

  /** A logout takes effect only on the session as it was read, still live, and ends it at the time it gives. */
  lemma LogoutEnds(run: seq<World>, steps: seq<Step>, c: Config, i: nat)
    requires Run(run, steps, c) && i < |steps| && steps[i].Logout? && run[i + 1] != run[i]
    ensures
      var s, now, next, record := steps[i], run[i].store, run[i + 1].store, run[steps[i].recordAt].store;
      && s.sessionId in record.sessions && s.sessionId in now.sessions && s.sessionId in next.sessions
      && var read := record.sessions[s.sessionId].session;
      && read.status == Live && read.createdAt <= s.at
      && now.sessions[s.sessionId].session.version == read.version
      && next.sessions[s.sessionId]
         == StoredSession(read.(status := Ended, revokedAt := Some(s.at), version := read.version + 1), now.sessions[s.sessionId].tokenDigest)
      && (forall id | id != s.sessionId :: (id in next.sessions <==> id in now.sessions)
                                           && (id in now.sessions ==> next.sessions[id] == now.sessions[id]))
  {
    var s := steps[i];
    StepIs(run, steps, c, i);
    StatesFit(run, steps, c, s.recordAt, s.recordAt);
    var ended := RevokeSession(run[s.recordAt].store.sessions[s.sessionId].session, At(s.at)).value;
    assert WithSaved(run[i].store.sessions, [ended][..0]) == run[i].store.sessions;
  }

  // ----- The other commands -----

  /** A challenge is stored with the lifetime it was issued for, for an identity that waits for it or may sign in. */
  lemma IssueStores(run: seq<World>, steps: seq<Step>, c: Config, i: nat)
    requires Run(run, steps, c) && i < |steps| && steps[i].Issue? && run[i + 1] != run[i]
    ensures
      var s, now, next, record := steps[i], run[i].store, run[i + 1].store, run[steps[i].recordAt].store;
      && s.issuedAt < s.expiresAt && s.challengeId !in now.challenges && s.identityId in record.identities
      && record.identities[s.identityId].status
         in (if s.purpose == EmailVerification then {PendingVerification} else {PendingVerification, IdentityActive})
      && next.challenges == now.challenges[s.challengeId := StoredChallenge(
           Challenge(s.challengeId, s.identityId, s.purpose, Issued, s.issuedAt, s.expiresAt, None, 1), s.digest)]
  {
    StepIs(run, steps, c, i);
  }

  /** A registration stores a new identity and its credential, under an address no credential has. */
  lemma RegisterStores(run: seq<World>, steps: seq<Step>, c: Config, i: nat)
    requires Run(run, steps, c) && i < |steps| && steps[i].Register? && run[i + 1] != run[i]
    ensures
      var s, now, next := steps[i], run[i].store, run[i + 1].store;
      && s.identity.id !in now.identities
      && (forall id | id in now.credentials :: now.credentials[id].email != s.credential.email)
      && next.identities == now.identities[s.identity.id := s.identity.(version := s.identity.version + 1)]
      && next.credentials == now.credentials[s.credential.id := s.credential]
      && next.passwordHashes == now.passwordHashes[s.credential.id := s.hash]
  {
    StepIs(run, steps, c, i);
  }

  /** Pruning takes sessions that ended or expired before one bound, or were last seen before the other; using a session
      moves its last use forward and changes nothing else. */
  lemma PruneAndActivity(run: seq<World>, steps: seq<Step>, c: Config, i: nat, id: ID)
    requires Run(run, steps, c) && i < |steps| && id in run[i].store.sessions
    requires steps[i].Prune? || steps[i].Activity?
    ensures
      var s, was, next := steps[i], run[i].store.sessions[id], run[i + 1].store;
      && (id !in next.sessions ==>
            && s.Prune? && id in s.ids
            && ((was.session.revokedAt.Some? && was.session.revokedAt.value < s.endedBefore)
                || was.session.expiresAt < s.endedBefore || was.session.lastSeenAt < s.idleBefore))
      && (id in next.sessions ==>
            next.sessions[id] ==
              if s.Activity? && id == s.sessionId && s.time.At? && was.session.lastSeenAt < s.time.ms
              then StoredSession(was.session.(lastSeenAt := s.time.ms), was.tokenDigest) else was)
  {
    StepIs(run, steps, c, i);
  }
}
