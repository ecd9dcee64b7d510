/** Identities, credentials, sessions and verification challenges (src/modules/identity/domain). */
module Accounts {
  import opened Prelude
  import opened Ids

  datatype Failure =
    | InvalidTime | InvalidExpiry | NonMonotonicTime | AlreadyRevoked | SessionRevoked | SessionExpired
    | CredentialRevoked | AlreadyConsumed | ChallengeExpired | InvalidVerification

  const UNSAVED: int := 0

  // ----- Sessions -----

  datatype SessionStatus = Live | Ended

  datatype Session = Session(
    id: ID, identityId: ID, status: SessionStatus, createdAt: int, expiresAt: int, lastSeenAt: int,
    revokedAt: Option<int>, version: int)
  {
    function Saved(): Session { this.(version := version + 1) }
  }

  function CreateSession(id: ID, identityId: ID, createdAt: Date, expiresAt: Date): Result<Session, Failure> {
    if createdAt.InvalidDate? || expiresAt.InvalidDate? then Err(InvalidTime)
    else if expiresAt.ms <= createdAt.ms then Err(InvalidExpiry)
    else Ok(Session(id, identityId, Live, createdAt.ms, expiresAt.ms, createdAt.ms, None, UNSAVED))
  }

  function AssertUsable(s: Session, at: Date, idleTimeoutMs: Option<int>): Result<(), Failure> {
    if at.InvalidDate? then Err(InvalidTime)
    else if s.status.Ended? then Err(SessionRevoked)
    else if at.ms >= s.expiresAt then Err(SessionExpired)
    else if idleTimeoutMs.Some? && at.ms - s.lastSeenAt >= idleTimeoutMs.value then Err(SessionExpired)
    else Ok(())
  }

  /** Activity only moves forward and keeps the version. */
  function Seen(s: Session, at: Date): Session {
    if at.InvalidDate? || at.ms <= s.lastSeenAt then s else s.(lastSeenAt := at.ms)
  }

  function RevokeSession(s: Session, at: Date): Result<Session, Failure> {
    if at.InvalidDate? then Err(InvalidTime)
    else if at.ms < s.createdAt then Err(NonMonotonicTime)
    else if s.status.Ended? then Err(AlreadyRevoked)
    else Ok(s.(status := Ended, revokedAt := Some(at.ms)))
  }

  // ----- Credentials -----

  datatype CredentialStatus = CredentialActive | CredentialEnded

  datatype Credential = Credential(
    id: ID, identityId: ID, email: string, status: CredentialStatus, createdAt: int, updatedAt: int,
    revokedAt: Option<int>)

  /** A new secret moves `updatedAt` strictly forward. */
  function ChangeSecret(c: Credential, at: Date): Result<Credential, Failure> {
    if at.InvalidDate? then Err(InvalidTime)
    else if at.ms <= c.updatedAt then Err(NonMonotonicTime)
    else if c.status.CredentialEnded? then Err(CredentialRevoked)
    else Ok(c.(updatedAt := at.ms))
  }

  // ----- Challenges -----

  datatype Purpose = EmailVerification | PasswordReset

  datatype ChallengeStatus = Issued | Consumed

  datatype Challenge = Challenge(
    id: ID, identityId: ID, purpose: Purpose, status: ChallengeStatus, issuedAt: int, expiresAt: int,
    consumedAt: Option<int>, version: int)
  {
    function Saved(): Challenge { this.(version := version + 1) }
  }

  function IssueChallenge(id: ID, identityId: ID, purpose: Purpose, issuedAt: Date, expiresAt: Date)
    : Result<Challenge, Failure>
  {
    if issuedAt.InvalidDate? || expiresAt.InvalidDate? then Err(InvalidTime)
    else if expiresAt.ms <= issuedAt.ms then Err(InvalidExpiry)
    else Ok(Challenge(id, identityId, purpose, Issued, issuedAt.ms, expiresAt.ms, None, UNSAVED))
  }

  function ConsumeChallenge(c: Challenge, at: Date): Result<Challenge, Failure> {
    if at.InvalidDate? then Err(InvalidTime)
    else if at.ms < c.issuedAt then Err(NonMonotonicTime)
    else if c.status.Consumed? then Err(AlreadyConsumed)
    else if at.ms >= c.expiresAt then Err(ChallengeExpired)
    else Ok(c.(status := Consumed, consumedAt := Some(at.ms)))
  }

  // ----- Identities -----

  datatype IdentityStatus = PendingVerification | IdentityActive | Suspended | Disabled

  datatype Identity = Identity(
    id: ID, status: IdentityStatus, createdAt: int, updatedAt: int, verifiedAt: Option<int>, version: int)
  {
    function Saved(): Identity { this.(version := version + 1) }
  }

  function VerifyIdentity(i: Identity, at: Date): Result<Identity, Failure> {
    if at.InvalidDate? then Err(InvalidTime)
    else if at.ms < i.updatedAt then Err(NonMonotonicTime)
    else if !i.status.PendingVerification? then Err(InvalidVerification)
    else Ok(i.(status := IdentityActive, updatedAt := at.ms, verifiedAt := Some(at.ms)))
  }
}
