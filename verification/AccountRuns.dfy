/**
 * Interleaved logins, password resets, verifications, logouts, activity and pruning on one store. A command reads
 * at some earlier states of the run and commits at a later one; a commit is one atomic step
 * (src/modules/identity/app/commands/authenticate-identity.ts, src/modules/identity/app/commands/confirm-password-reset.ts,
 * src/modules/identity/app/commands/verify-identity.ts, src/modules/identity/app/commands/revoke-session.ts).
 */
module AccountRuns {
  import opened Prelude
  import opened Ids
  import opened Accounts
  import opened AccountStore
  import opened Logins

  /** What a login verified its password against. */
  datatype Opening = Opening(credentialId: ID, updatedAt: int, password: string, hash: string)

  datatype World = World(store: State, openings: map<ID, Opening>, resets: seq<ID>)

  /** `verify` is the password verifier. */
  datatype Config = Config(idleTimeoutMs: int, maxActive: int, verify: (string, string) -> bool)

  /** Where a command made its reads: indices into the run, in the order it made them. */
  datatype Step =
    | Login(recordAt: nat, listedAt: nat, credentialId: ID, password: string, sessionId: ID,
            createdAt: int, expiresAt: int, digest: string, listed: seq<Session>)
    | Reset(challengeAt: nat, recordAt: nat, listedAt: nat, challengeId: ID, credentialId: ID, at: int,
            hash: string, listed: seq<Session>)
    | VerifyEmail(challengeAt: nat, recordAt: nat, challengeId: ID, at: int)
    | Issue(recordAt: nat, challengeId: ID, identityId: ID, purpose: Purpose, issuedAt: int, expiresAt: int, digest: string)
    | Logout(recordAt: nat, sessionId: ID, at: int)
    | Activity(sessionId: ID, time: Date)
    | Prune(ids: set<ID>, endedBefore: int, idleBefore: int)
    | Register(identity: Identity, credential: Credential, hash: string)

  // ----- What each command computes from its reads -----

  function Or(s: State, r: Result<State, StoreFailure>): State { if r.Ok? then r.value else s }

  ghost predicate CanLogin(record: State, listing: State, s: Step, c: Config)
    requires s.Login?
  {
    && s.credentialId in record.credentials && s.credentialId in record.passwordHashes
    && record.credentials[s.credentialId].identityId in record.identities
    && c.verify(s.password, record.passwordHashes[s.credentialId])
    && record.identities[record.credentials[s.credentialId].identityId].status.IdentityActive?
    && record.credentials[s.credentialId].status.CredentialActive?
    && CreateSession(s.sessionId, record.credentials[s.credentialId].identityId, At(s.createdAt), At(s.expiresAt)).Ok?
    && IsListing(listing.sessions, record.credentials[s.credentialId].identityId, s.listed)
    && Evictions(s.listed, s.createdAt, c.idleTimeoutMs, c.maxActive).Ok?
  }

  ghost function LoggedIn(w: World, record: State, listing: State, s: Step, c: Config): World
    requires s.Login? && CanLogin(record, listing, s, c)
  {
    var credential := record.credentials[s.credentialId];
    var session := CreateSession(s.sessionId, credential.identityId, At(s.createdAt), At(s.expiresAt)).value;
    var evicted := Evictions(s.listed, s.createdAt, c.idleTimeoutMs, c.maxActive).value;
    match SessionCommit(w.store, session, credential, s.digest, evicted)
    case Err(_) => w
    case Ok(next) =>
      w.(store := next,
         openings := w.openings[s.sessionId := Opening(s.credentialId, credential.updatedAt, s.password,
                                                   record.passwordHashes[s.credentialId])])
  }

  ghost predicate CanReset(found: State, record: State, listing: State, s: Step)
    requires s.Reset?
  {
    && s.challengeId in found.challenges && found.challenges[s.challengeId].challenge.purpose.PasswordReset?
    && ConsumeChallenge(found.challenges[s.challengeId].challenge, At(s.at)).Ok?
    && s.credentialId in record.credentials
    && record.credentials[s.credentialId].identityId == found.challenges[s.challengeId].challenge.identityId
    && record.credentials[s.credentialId].status.CredentialActive?
    && record.credentials[s.credentialId].identityId in record.identities
    && record.identities[record.credentials[s.credentialId].identityId].status in {IdentityActive, PendingVerification}
    && ChangeSecret(record.credentials[s.credentialId], At(s.at)).Ok?
    && (record.identities[record.credentials[s.credentialId].identityId].status.PendingVerification? ==>
          VerifyIdentity(record.identities[record.credentials[s.credentialId].identityId], At(s.at)).Ok?)
    && IsListing(listing.sessions, record.credentials[s.credentialId].identityId, s.listed)
    && RevokeAll(s.listed, s.at).Ok?
  }

  function ResetResult(w: State, found: State, record: State, s: Step): Result<State, StoreFailure>
    requires s.Reset? && s.challengeId in found.challenges && s.credentialId in record.credentials
    requires ConsumeChallenge(found.challenges[s.challengeId].challenge, At(s.at)).Ok?
    requires ChangeSecret(record.credentials[s.credentialId], At(s.at)).Ok?
    requires record.credentials[s.credentialId].identityId in record.identities
    requires record.identities[record.credentials[s.credentialId].identityId].status.PendingVerification? ==>
               VerifyIdentity(record.identities[record.credentials[s.credentialId].identityId], At(s.at)).Ok?
    requires RevokeAll(s.listed, s.at).Ok?
  {
    var credential := record.credentials[s.credentialId];
    var identity := record.identities[credential.identityId];
    var verified := if identity.status.PendingVerification? then Some(VerifyIdentity(identity, At(s.at)).value) else None;
    ResetCommit(w, ConsumeChallenge(found.challenges[s.challengeId].challenge, At(s.at)).value,
                ChangeSecret(credential, At(s.at)).value, credential.updatedAt, s.hash, verified,
                RevokeAll(s.listed, s.at).value)
  }

  ghost function WasReset(w: World, found: State, record: State, listing: State, s: Step): World
    requires s.Reset? && CanReset(found, record, listing, s)
  {
    match ResetResult(w.store, found, record, s)
    case Err(_) => w
    case Ok(next) => w.(store := next, resets := w.resets + [s.challengeId])
  }

  ghost predicate CanVerify(found: State, record: State, s: Step)
    requires s.VerifyEmail?
  {
    && s.challengeId in found.challenges && found.challenges[s.challengeId].challenge.purpose.EmailVerification?
    && ConsumeChallenge(found.challenges[s.challengeId].challenge, At(s.at)).Ok?
    && found.challenges[s.challengeId].challenge.identityId in record.identities
    && VerifyIdentity(record.identities[found.challenges[s.challengeId].challenge.identityId], At(s.at)).Ok?
  }

  ghost function Verified(w: World, found: State, record: State, s: Step): World
    requires s.VerifyEmail? && CanVerify(found, record, s)
  {
    var challenge := found.challenges[s.challengeId].challenge;
    w.(store := Or(w.store, VerificationCommit(w.store, VerifyIdentity(record.identities[challenge.identityId], At(s.at)).value,
                                               ConsumeChallenge(challenge, At(s.at)).value)))
  }

  /** A verification challenge is issued while the identity waits for it, a reset challenge to whoever may sign in
      again. */
  predicate CanIssue(record: State, s: Step)
    requires s.Issue?
  {
    && s.identityId in record.identities
    && (match s.purpose
        case EmailVerification => record.identities[s.identityId].status.PendingVerification?
        case PasswordReset =>
          && (record.identities[s.identityId].status.IdentityActive? || record.identities[s.identityId].status.PendingVerification?)
          && exists id :: id in record.credentials && record.credentials[id].identityId == s.identityId)
    && IssueChallenge(s.challengeId, s.identityId, s.purpose, At(s.issuedAt), At(s.expiresAt)).Ok?
  }

  function ChallengeIssued(w: World, record: State, s: Step): World
    requires s.Issue? && CanIssue(record, s)
  {
    var challenge := IssueChallenge(s.challengeId, s.identityId, s.purpose, At(s.issuedAt), At(s.expiresAt)).value;
    w.(store := Or(w.store, ChallengeCommit(w.store, challenge, s.digest)))
  }

  ghost predicate CanLogout(record: State, s: Step)
    requires s.Logout?
  {
    s.sessionId in record.sessions && RevokeSession(record.sessions[s.sessionId].session, At(s.at)).Ok?
  }

  function LoggedOut(w: World, record: State, s: Step): World
    requires s.Logout? && s.sessionId in record.sessions
    requires RevokeSession(record.sessions[s.sessionId].session, At(s.at)).Ok?
  {
    w.(store := Or(w.store, RevocationCommit(w.store, RevokeSession(record.sessions[s.sessionId].session, At(s.at)).value)))
  }

  /** A registration brings new ids: the generator never repeats one. */
  predicate CanRegister(w: State, s: Step)
    requires s.Register?
  {
    s.credential.id !in w.credentials && s.credential.identityId == s.identity.id
  }

  // ----- Runs -----

  ghost predicate Enabled(run: seq<World>, i: nat, s: Step, c: Config)
    requires i < |run|
  {
    match s
    case Login(r, l, _, _, _, _, _, _, _) => r <= l <= i && CanLogin(run[r].store, run[l].store, s, c)
    case Reset(f, r, l, _, _, _, _, _) => f <= r <= l <= i && CanReset(run[f].store, run[r].store, run[l].store, s)
    case VerifyEmail(f, r, _, _) => f <= r <= i && CanVerify(run[f].store, run[r].store, s)
    case Issue(r, _, _, _, _, _, _) => r <= i && CanIssue(run[r].store, s)
    case Logout(r, _, _) => r <= i && CanLogout(run[r].store, s)
    case Activity(_, _) => true
    case Prune(ids, ended, idle) =>
      forall id | id in ids && id in run[i].store.sessions :: Prunable(run[i].store.sessions[id].session, ended, idle)
    case Register(_, _, _) => CanRegister(run[i].store, s)
  }

  ghost function Next(run: seq<World>, i: nat, s: Step, c: Config): World
    requires i < |run| && Enabled(run, i, s, c)
  {
    var w := run[i];
    match s
    case Login(r, l, _, _, _, _, _, _, _) => LoggedIn(w, run[r].store, run[l].store, s, c)
    case Reset(f, r, l, _, _, _, _, _) => WasReset(w, run[f].store, run[r].store, run[l].store, s)
    case VerifyEmail(f, r, _, _) => Verified(w, run[f].store, run[r].store, s)
    case Issue(r, _, _, _, _, _, _) => ChallengeIssued(w, run[r].store, s)
    case Logout(r, _, _) => LoggedOut(w, run[r].store, s)
    case Activity(sessionId, time) => w.(store := RecordActivity(w.store, sessionId, time))
    case Prune(ids, _, _) => w.(store := w.store.(sessions := w.store.sessions - ids))
    case Register(identity, credential, hash) => w.(store := Or(w.store, RegistrationCommit(w.store, identity, credential, hash)))
  }

  ghost predicate Run(run: seq<World>, steps: seq<Step>, c: Config) {
    && |run| == |steps| + 1
    && run[0] == World(State(map[], map[], map[], map[], map[]), map[], [])
    && forall i | 0 <= i < |steps| :: Enabled(run, i, steps[i], c) && run[i + 1] == Next(run, i, steps[i], c)
  }

  // ----- What every state satisfies -----

  /** A live session was opened against the credential as it is now. */
  ghost predicate Current(w: World, id: ID, c: Config)
    requires id in w.store.sessions
  {
    var session := w.store.sessions[id].session;
    && id in w.openings
    && var o := w.openings[id];
       && o.credentialId in w.store.credentials && o.credentialId in w.store.passwordHashes
       && w.store.credentials[o.credentialId].identityId == session.identityId
       && w.store.credentials[o.credentialId].updatedAt == o.updatedAt
       && w.store.passwordHashes[o.credentialId] == o.hash
       && c.verify(o.password, o.hash)
  }

  ghost predicate SessionsFit(w: World, c: Config) {
    forall id | id in w.store.sessions ::
      w.store.sessions[id].session.id == id && (w.store.sessions[id].session.status.Live? ==> Current(w, id, c))
  }

  ghost predicate CredentialsFit(s: State) {
    && (forall id | id in s.credentials ::
          s.credentials[id].id == id && id in s.passwordHashes && s.credentials[id].identityId in s.identities)
    && (forall id | id in s.identities :: s.identities[id].id == id)
    && (forall a, b | a in s.credentials && b in s.credentials && s.credentials[a].identityId == s.credentials[b].identityId ::
          a == b)
  }

  /** The version tells issued challenges from consumed ones. */
  ghost predicate Versioned(s: State) {
    forall id | id in s.challenges ::
      var ch := s.challenges[id].challenge;
      ch.id == id && ch.version == if ch.status.Issued? then 1 else 2
  }

  ghost predicate ChallengesFit(w: World) {
    && Versioned(w.store)
    && (forall i | 0 <= i < |w.resets| ::
          w.resets[i] in w.store.challenges && w.store.challenges[w.resets[i]].challenge.status.Consumed?)
    && (forall i, j | 0 <= i < j < |w.resets| :: w.resets[i] != w.resets[j])
  }

  ghost predicate Fit(w: World, c: Config) {
    SessionsFit(w, c) && CredentialsFit(w.store) && ChallengesFit(w)
  }

  /** From a to b no credential vanished or changed hands, and the same `updatedAt` means the same secret. */
  ghost predicate Grown(a: State, b: State) {
    forall id | id in a.credentials ::
      && id in b.credentials && b.credentials[id].identityId == a.credentials[id].identityId
      && a.credentials[id].updatedAt <= b.credentials[id].updatedAt
      && (a.credentials[id].updatedAt == b.credentials[id].updatedAt ==>
            && b.credentials[id] == a.credentials[id]
            && (id in a.passwordHashes ==> id in b.passwordHashes && b.passwordHashes[id] == a.passwordHashes[id]))
  }

  lemma GrownTransitive(a: State, b: State, d: State)
    requires Grown(a, b) && Grown(b, d)
    ensures Grown(a, d)
  {
  }

  // ----- Every step keeps it -----

  lemma LoginStep(w: World, record: State, listing: State, s: Step, c: Config)
    requires s.Login? && Fit(w, c) && Grown(record, w.store) && CredentialsFit(record) && CanLogin(record, listing, s, c)
    ensures Fit(LoggedIn(w, record, listing, s, c), c) && Grown(w.store, LoggedIn(w, record, listing, s, c).store)
  {
    var w' := LoggedIn(w, record, listing, s, c);
    var evicted := Evictions(s.listed, s.createdAt, c.idleTimeoutMs, c.maxActive).value;
    var usable := UsableOf(s.listed, s.createdAt, c.idleTimeoutMs);
    RevokeAllSpec(usable[Kept(|usable|, c.maxActive)..], s.createdAt);
    if w' != w {
      forall id | id in w'.store.sessions && id != s.sessionId
        ensures w'.store.sessions[id].session.id == id
        ensures w'.store.sessions[id].session.status.Live? ==> Current(w', id, c)
      {
        WithSavedFrame(w.store.sessions, evicted, id);
        if w'.store.sessions[id].session.status.Live? { assert Current(w, id, c); }
      }
      assert Current(w', s.sessionId, c);
    }
  }

  /** After a reset no session of the identity is live. */
  lemma ResetEndsAll(w: State, next: State, found: State, record: State, listing: State, s: Step)
    requires s.Reset? && CanReset(found, record, listing, s)
    requires forall id | id in w.sessions :: w.sessions[id].session.id == id
    requires ResetResult(w, found, record, s) == Ok(next)
    ensures forall id | id in next.sessions :: next.sessions[id].session.id == id
    ensures forall id | id in next.sessions && next.sessions[id].session.status.Live? ::
              id in w.sessions && next.sessions[id] == w.sessions[id]
              && next.sessions[id].session.identityId != record.credentials[s.credentialId].identityId
  {
    RevokeAllSpec(s.listed, s.at);
    var revoked := RevokeAll(s.listed, s.at).value;
    forall id | id in next.sessions
      ensures next.sessions[id].session.id == id
      ensures next.sessions[id].session.status.Live? ==>
        id in w.sessions && next.sessions[id] == w.sessions[id]
        && next.sessions[id].session.identityId != record.credentials[s.credentialId].identityId
    {
      WithSavedFrame(w.sessions, revoked, id);
    }
  }

  lemma ResetCredentials(w: State, next: State, found: State, record: State, listing: State, s: Step)
    requires s.Reset? && CanReset(found, record, listing, s) && ResetResult(w, found, record, s) == Ok(next)
    requires CredentialsFit(w) && CredentialsFit(record) && Grown(record, w)
    ensures CredentialsFit(next) && Grown(w, next)
    ensures s.credentialId in w.credentials && s.credentialId in next.credentials
    ensures w.credentials[s.credentialId] == record.credentials[s.credentialId]
    ensures next.credentials == w.credentials[s.credentialId := next.credentials[s.credentialId]]
    ensures next.passwordHashes == w.passwordHashes[s.credentialId := s.hash]
    ensures next.credentials[s.credentialId].updatedAt == s.at > w.credentials[s.credentialId].updatedAt
  {
    var credential := record.credentials[s.credentialId];
    assert w.credentials[s.credentialId] == credential;
    var identity := record.identities[credential.identityId];
    SecretChanged(w, next, ChangeSecret(credential, At(s.at)).value, identity.id);
  }

  lemma SecretChanged(w: State, next: State, changed: Credential, identityId: ID)
    requires CredentialsFit(w) && changed.id in w.credentials && w.credentials[changed.id].identityId == changed.identityId
    requires w.credentials[changed.id].updatedAt < changed.updatedAt
    requires next.credentials == w.credentials[changed.id := changed]
    requires forall id | id in w.passwordHashes :: id in next.passwordHashes
    requires forall id | id in w.passwordHashes && id != changed.id :: next.passwordHashes[id] == w.passwordHashes[id]
    requires next.identities == w.identities
          || (identityId in w.identities && identityId in next.identities && next.identities[identityId].id == identityId
              && next.identities == w.identities[identityId := next.identities[identityId]])
    ensures CredentialsFit(next) && Grown(w, next)
  {
  }

  /** The challenge was issued when it was read, and its version says it still was at the commit. */
  lemma ResetChallenges(w: World, next: State, found: State, record: State, listing: State, s: Step)
    requires s.Reset? && CanReset(found, record, listing, s) && ResetResult(w.store, found, record, s) == Ok(next)
    requires ChallengesFit(w) && Versioned(found)
    ensures w.store.challenges[s.challengeId].challenge.status.Issued?
    ensures ChallengesFit(w.(store := next, resets := w.resets + [s.challengeId]))
  {
  }

  lemma ResetStep(w: World, found: State, record: State, listing: State, s: Step, c: Config)
    requires s.Reset? && Fit(w, c) && Grown(record, w.store) && CanReset(found, record, listing, s)
    requires Versioned(found) && CredentialsFit(record)
    ensures Fit(WasReset(w, found, record, listing, s), c) && Grown(w.store, WasReset(w, found, record, listing, s).store)
  {
    var r := ResetResult(w.store, found, record, s);
    if r.Ok? {
      ResetEndsAll(w.store, r.value, found, record, listing, s);
      ResetCredentials(w.store, r.value, found, record, listing, s);
      ResetChallenges(w, r.value, found, record, listing, s);
      ResetSessions(w, r.value, found, record, listing, s, c);
    }
  }

  lemma ResetSessions(w: World, next: State, found: State, record: State, listing: State, s: Step, c: Config)
    requires s.Reset? && SessionsFit(w, c) && CanReset(found, record, listing, s) && ResetResult(w.store, found, record, s) == Ok(next)
    requires CredentialsFit(w.store) && CredentialsFit(record) && Grown(record, w.store)
    ensures SessionsFit(w.(store := next, resets := w.resets + [s.challengeId]), c)
  {
    var w' := w.(store := next, resets := w.resets + [s.challengeId]);
    ResetEndsAll(w.store, next, found, record, listing, s);
    ResetCredentials(w.store, next, found, record, listing, s);
    forall id | id in next.sessions && next.sessions[id].session.status.Live?
      ensures Current(w', id, c)
    {
      assert Current(w, id, c);
    }
  }

  /** Saving one ended session, recording activity and pruning never make a session live. */
  lemma LogoutStep(w: World, record: State, s: Step, c: Config)
    requires s.Logout? && Fit(w, c) && CanLogout(record, s)
    requires forall id | id in record.sessions :: record.sessions[id].session.id == id
    ensures Fit(LoggedOut(w, record, s), c) && Grown(w.store, LoggedOut(w, record, s).store)
  {
    var w' := LoggedOut(w, record, s);
    var ended := RevokeSession(record.sessions[s.sessionId].session, At(s.at)).value;
    forall id | id in w'.store.sessions
      ensures w'.store.sessions[id].session.id == id
      ensures w'.store.sessions[id].session.status.Live? ==> Current(w', id, c)
    {
      WithSavedFrame(w.store.sessions, [ended], id);
      if w'.store.sessions[id].session.status.Live? { assert Current(w, id, c); }
    }
  }

  lemma ActivityStep(w: World, sessionId: ID, time: Date, c: Config)
    requires Fit(w, c)
    ensures var w' := w.(store := RecordActivity(w.store, sessionId, time)); Fit(w', c) && Grown(w.store, w'.store)
  {
    var w' := w.(store := RecordActivity(w.store, sessionId, time));
    forall id | id in w'.store.sessions && w'.store.sessions[id].session.status.Live?
      ensures Current(w', id, c)
    {
      assert Current(w, id, c);
    }
  }

  lemma PruneStep(w: World, ids: set<ID>, c: Config)
    requires Fit(w, c)
    ensures var w' := w.(store := w.store.(sessions := w.store.sessions - ids)); Fit(w', c) && Grown(w.store, w'.store)
  {
    var w' := w.(store := w.store.(sessions := w.store.sessions - ids));
    forall id | id in w'.store.sessions && w'.store.sessions[id].session.status.Live?
      ensures Current(w', id, c)
    {
      assert Current(w, id, c);
    }
  }

  lemma VerifyStep(w: World, found: State, record: State, s: Step, c: Config)
    requires s.VerifyEmail? && Fit(w, c) && CanVerify(found, record, s)
    requires Versioned(found) && CredentialsFit(record)
    ensures Fit(Verified(w, found, record, s), c) && Grown(w.store, Verified(w, found, record, s).store)
  {
    var w' := Verified(w, found, record, s);
    forall id | id in w'.store.sessions && w'.store.sessions[id].session.status.Live?
      ensures Current(w', id, c)
    {
      assert Current(w, id, c);
    }
  }

  lemma IssueStep(w: World, record: State, s: Step, c: Config)
    requires s.Issue? && Fit(w, c) && CanIssue(record, s)
    ensures Fit(ChallengeIssued(w, record, s), c) && Grown(w.store, ChallengeIssued(w, record, s).store)
  {
    var w' := ChallengeIssued(w, record, s);
    forall id | id in w'.store.sessions && w'.store.sessions[id].session.status.Live?
      ensures Current(w', id, c)
    {
      assert Current(w, id, c);
    }
  }

  lemma RegisterStep(w: World, s: Step, c: Config)
    requires s.Register? && Fit(w, c) && CanRegister(w.store, s)
    ensures var w' := w.(store := Or(w.store, RegistrationCommit(w.store, s.identity, s.credential, s.hash)));
      Fit(w', c) && Grown(w.store, w'.store)
  {
    var w' := w.(store := Or(w.store, RegistrationCommit(w.store, s.identity, s.credential, s.hash)));
    forall id | id in w'.store.sessions && w'.store.sessions[id].session.status.Live?
      ensures Current(w', id, c)
    {
      assert Current(w, id, c);
    }
  }

  // ----- Every run -----

  lemma {:induction false} RunFit(run: seq<World>, steps: seq<Step>, c: Config, i: nat)
    requires Run(run, steps, c) && i < |run|
    ensures forall k | 0 <= k <= i :: Fit(run[k], c) && Grown(run[k].store, run[i].store)
    decreases i
  {
    if i > 0 {
      RunFit(run, steps, c, i - 1);
      var s := steps[i - 1];
      assert Enabled(run, i - 1, s, c);
      OneStep(run, i - 1, s, c);
      forall k | 0 <= k <= i
        ensures Fit(run[k], c) && Grown(run[k].store, run[i].store)
      {
        if k < i { GrownTransitive(run[k].store, run[i - 1].store, run[i].store); }
      }
    }
  }

  lemma OneStep(run: seq<World>, i: nat, s: Step, c: Config)
    requires i < |run| && Enabled(run, i, s, c)
    requires forall k | 0 <= k <= i :: Fit(run[k], c) && Grown(run[k].store, run[i].store)
    ensures Fit(Next(run, i, s, c), c) && Grown(run[i].store, Next(run, i, s, c).store)
  {
    var w := run[i];
    match s
    case Login(r, l, _, _, _, _, _, _, _) => LoginStep(w, run[r].store, run[l].store, s, c);
    case Reset(f, r, l, _, _, _, _, _) => ResetStep(w, run[f].store, run[r].store, run[l].store, s, c);
    case VerifyEmail(f, r, _, _) => VerifyStep(w, run[f].store, run[r].store, s, c);
    case Issue(r, _, _, _, _, _, _) => IssueStep(w, run[r].store, s, c);
    case Logout(r, _, _) => LogoutStep(w, run[r].store, s, c);
    case Activity(sessionId, time) => ActivityStep(w, sessionId, time, c);
    case Prune(ids, _, _) => PruneStep(w, ids, c);
    case Register(_, _, _) => RegisterStep(w, s, c);
  }

  /** In every reachable state each live session was committed against its credential's current `updatedAt`,
      and the password it was opened with verifies under the current hash. */
  lemma NoStalePassword(run: seq<World>, steps: seq<Step>, c: Config, i: nat, id: ID)
    requires Run(run, steps, c) && i < |run|
    requires id in run[i].store.sessions && run[i].store.sessions[id].session.status.Live?
    ensures Current(run[i], id, c)
  {
    RunFit(run, steps, c, i);
  }

  /** A committed reset signs everyone out: whoever is live at any later state logged in against the new secret. */
  lemma ResetEndsOldSessions(run: seq<World>, steps: seq<Step>, c: Config, i: nat, j: nat, id: ID)
    requires Run(run, steps, c) && i < |steps| && steps[i].Reset? && |run[i + 1].resets| > |run[i].resets|
    requires i < j < |run| && id in run[j].store.sessions && run[j].store.sessions[id].session.status.Live?
    requires run[j].store.sessions[id].session.identityId
          == run[steps[i].recordAt].store.credentials[steps[i].credentialId].identityId
    ensures j > i + 1
    ensures id in run[j].openings
    ensures run[j].openings[id].credentialId == steps[i].credentialId && run[j].openings[id].updatedAt >= steps[i].at
  {
    var s := steps[i];
    var (f, r, l) := (s.challengeAt, s.recordAt, s.listedAt);
    assert Enabled(run, i, s, c);
    RunFit(run, steps, c, j);
    RunFit(run, steps, c, i);
    var next := run[i + 1].store;
    ResetCredentials(run[i].store, next, run[f].store, run[r].store, run[l].store, s);
    ResetEndsAll(run[i].store, next, run[f].store, run[r].store, run[l].store, s);
    assert Current(run[j], id, c);
    assert Grown(next, run[j].store);
  }

  /** No reset challenge is consumed by two committed resets. */
  lemma ResetAtMostOnce(run: seq<World>, steps: seq<Step>, c: Config, i: nat, a: nat, b: nat)
    requires Run(run, steps, c) && i < |run| && a < b < |run[i].resets|
    ensures run[i].resets[a] != run[i].resets[b]
  {
    RunFit(run, steps, c, i);
  }
}
