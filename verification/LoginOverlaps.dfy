/**
 * The session cap when logins overlap: a login that lists the sessions, then commits after others did
 * (src/modules/identity/app/commands/authenticate-identity.ts).
 */
module LoginOverlaps {
  import opened Prelude
  import opened Ids
  import opened Accounts
  import opened AccountStore
  import opened Logins
  import opened AccountRuns

  ghost function UsableAt(w: World, identityId: ID, at: int, c: Config): set<ID> {
    UsableSessions(w.store.sessions, identityId, at, c.idleTimeoutMs)
  }

  /** Step j made a session usable that was not. */
  ghost predicate Wakes(run: seq<World>, j: nat, identityId: ID, at: int, c: Config)
    requires j + 1 < |run|
  {
    !(UsableAt(run[j + 1], identityId, at, c) <= UsableAt(run[j], identityId, at, c))
  }

  /** The logins between two states that opened a session of the identity. */
  ghost function Opened(run: seq<World>, steps: seq<Step>, from: nat, until: nat, identityId: ID, at: int, c: Config): nat
    requires from <= until <= |steps| && |run| == |steps| + 1
    decreases until
  {
    if from == until then 0
    else
      Opened(run, steps, from, until - 1, identityId, at, c)
      + (if steps[until - 1].Login? && Wakes(run, until - 1, identityId, at, c) then 1 else 0)
  }

  /** The activity writes between two states that made an idle session of the identity usable again. */
  ghost function Revived(run: seq<World>, steps: seq<Step>, from: nat, until: nat, identityId: ID, at: int, c: Config): nat
    requires from <= until <= |steps| && |run| == |steps| + 1
    decreases until
  {
    if from == until then 0
    else
      Revived(run, steps, from, until - 1, identityId, at, c)
      + (if steps[until - 1].Activity? && Wakes(run, until - 1, identityId, at, c) then 1 else 0)
  }

  // ----- What each step can make usable -----

  /** Saving ended sessions makes none usable. */
  lemma SavingEndsOnly(sessions: map<ID, StoredSession>, changed: seq<Session>, identityId: ID, at: int, idle: int)
    requires forall i | 0 <= i < |changed| :: changed[i].status.Ended?
    ensures UsableSessions(WithSaved(sessions, changed), identityId, at, idle) <= UsableSessions(sessions, identityId, at, idle)
  {
    forall id | id in UsableSessions(WithSaved(sessions, changed), identityId, at, idle)
      ensures id in UsableSessions(sessions, identityId, at, idle)
    {
      WithSavedFrame(sessions, changed, id);
    }
  }

  lemma EvictionsEnd(listed: seq<Session>, at: int, idle: int, maxActive: int)
    requires Evictions(listed, at, idle, maxActive).Ok?
    ensures forall e | e in Evictions(listed, at, idle, maxActive).value :: e.status.Ended?
  {
    var usable := UsableOf(listed, at, idle);
    RevokeAllSpec(usable[Kept(|usable|, maxActive)..], at);
  }

  lemma LoginWakesOne(w: World, record: State, listing: State, s: Step, c: Config, identityId: ID, at: int)
    requires s.Login? && CanLogin(record, listing, s, c)
    ensures UsableAt(LoggedIn(w, record, listing, s, c), identityId, at, c) <= UsableAt(w, identityId, at, c) + {s.sessionId}
  {
    EvictionsEnd(s.listed, s.createdAt, c.idleTimeoutMs, c.maxActive);
    var evicted := Evictions(s.listed, s.createdAt, c.idleTimeoutMs, c.maxActive).value;
    SavingEndsOnly(w.store.sessions, evicted, identityId, at, c.idleTimeoutMs);
  }

  lemma ResetWakesNone(w: World, found: State, record: State, listing: State, s: Step, c: Config, identityId: ID, at: int)
    requires s.Reset? && CanReset(found, record, listing, s) && Keyed(w.store.sessions)
    ensures UsableAt(WasReset(w, found, record, listing, s), identityId, at, c) <= UsableAt(w, identityId, at, c)
  {
    var r := ResetResult(w.store, found, record, s);
    if r.Ok? { ResetEndsAll(w.store, r.value, found, record, listing, s); }
  }

  lemma LogoutWakesNone(w: World, record: State, s: Step, c: Config, identityId: ID, at: int)
    requires s.Logout? && CanLogout(record, s)
    ensures UsableAt(LoggedOut(w, record, s), identityId, at, c) <= UsableAt(w, identityId, at, c)
  {
    var ended := RevokeSession(record.sessions[s.sessionId].session, At(s.at)).value;
    SavingEndsOnly(w.store.sessions, [ended], identityId, at, c.idleTimeoutMs);
  }

  lemma StepWakes(run: seq<World>, i: nat, s: Step, c: Config, identityId: ID, at: int)
    requires i < |run| && Enabled(run, i, s, c) && Keyed(run[i].store.sessions)
    ensures
      UsableAt(Next(run, i, s, c), identityId, at, c)
      <= UsableAt(run[i], identityId, at, c) + (if s.Login? || s.Activity? then {s.sessionId} else {})
  {
    var w := run[i];
    match s
    case Login(r, l, _, _, _, _, _, _, _) => LoginWakesOne(w, run[r].store, run[l].store, s, c, identityId, at);
    case Reset(f, r, l, _, _, _, _, _) => ResetWakesNone(w, run[f].store, run[r].store, run[l].store, s, c, identityId, at);
    case Logout(r, _, _) => LogoutWakesNone(w, run[r].store, s, c, identityId, at);
    case _ =>
  }

  lemma RunKeyed(run: seq<World>, steps: seq<Step>, c: Config, i: nat)
    requires Run(run, steps, c) && i < |run|
    ensures Keyed(run[i].store.sessions)
  {
    RunFit(run, steps, c, i);
    assert Fit(run[i], c);
  }

  lemma {:induction false} SubsetSize<T>(a: set<T>, b: set<T>)
    requires a <= b
    ensures |a| <= |b|
    decreases |a|
  {
    if x :| x in a { SubsetSize(a - {x}, b - {x}); }
  }

  lemma GrowsByOne<T>(was: set<T>, before: set<T>, after: set<T>, x: T)
    requires after <= before + {x}
    ensures |after - was| <= |before - was| + (if after <= before then 0 else 1)
  {
    if after <= before {
      SubsetSize(after - was, before - was);
    } else {
      SubsetSize(after - was, (before - was) + {x});
    }
  }

  /** One step makes at most one session usable, and only a login or an activity write does. */
  lemma StepGrows(run: seq<World>, steps: seq<Step>, c: Config, j: nat, identityId: ID, at: int, was: set<ID>)
    requires Run(run, steps, c) && j < |steps|
    ensures Wakes(run, j, identityId, at, c) ==> steps[j].Login? || steps[j].Activity?
    ensures |UsableAt(run[j + 1], identityId, at, c) - was|
         <= |UsableAt(run[j], identityId, at, c) - was| + (if Wakes(run, j, identityId, at, c) then 1 else 0)
  {
    RunKeyed(run, steps, c, j);
    assert Enabled(run, j, steps[j], c) && run[j + 1] == Next(run, j, steps[j], c);
    StepWakes(run, j, steps[j], c, identityId, at);
    var before, after := UsableAt(run[j], identityId, at, c), UsableAt(run[j + 1], identityId, at, c);
    if steps[j].Login? || steps[j].Activity? {
      GrowsByOne(was, before, after, steps[j].sessionId);
    } else {
      SubsetSize(after - was, before - was);
    }
  }

  ghost predicate GrowsAt(run: seq<World>, steps: seq<Step>, c: Config, j: nat, identityId: ID, at: int, was: set<ID>)
    requires j < |steps| && |run| == |steps| + 1
  {
    && (Wakes(run, j, identityId, at, c) ==> steps[j].Login? || steps[j].Activity?)
    && |UsableAt(run[j + 1], identityId, at, c) - was|
       <= |UsableAt(run[j], identityId, at, c) - was| + (if Wakes(run, j, identityId, at, c) then 1 else 0)
  }

  lemma {:induction false} GrowthAddsUp(run: seq<World>, steps: seq<Step>, c: Config, from: nat, until: nat, identityId: ID,
                                        at: int, was: set<ID>)
    requires from <= until <= |steps| && |run| == |steps| + 1
    requires forall j | from <= j < until :: GrowsAt(run, steps, c, j, identityId, at, was)
    ensures |UsableAt(run[until], identityId, at, c) - was|
         <= |UsableAt(run[from], identityId, at, c) - was|
            + Opened(run, steps, from, until, identityId, at, c) + Revived(run, steps, from, until, identityId, at, c)
    decreases until
  {
    if from != until {
      GrowthAddsUp(run, steps, c, from, until - 1, identityId, at, was);
      assert GrowsAt(run, steps, c, until - 1, identityId, at, was);
    }
  }

  /** What became usable between two states was opened by a login or woken by an activity write in between. */
  lemma NewlyUsable(run: seq<World>, steps: seq<Step>, c: Config, from: nat, until: nat, identityId: ID, at: int)
    requires Run(run, steps, c) && from <= until < |run|
    ensures |UsableAt(run[until], identityId, at, c) - UsableAt(run[from], identityId, at, c)|
         <= Opened(run, steps, from, until, identityId, at, c) + Revived(run, steps, from, until, identityId, at, c)
  {
    var was := UsableAt(run[from], identityId, at, c);
    forall j | from <= j < until ensures GrowsAt(run, steps, c, j, identityId, at, was) {
      StepGrows(run, steps, c, j, identityId, at, was);
    }
    GrowthAddsUp(run, steps, c, from, until, identityId, at, was);
    assert was - was == {};
  }

  // ----- The cap -----

  lemma SavedNotUsable(sessions: map<ID, StoredSession>, changed: seq<Session>, identityId: ID, at: int, idle: int, id: ID)
    requires forall i | 0 <= i < |changed| :: changed[i].status.Ended?
    requires exists i :: 0 <= i < |changed| && changed[i].id == id
    ensures id !in UsableSessions(WithSaved(sessions, changed), identityId, at, idle)
  {
    WithSavedFrame(sessions, changed, id);
  }

  /** Right after the evictions: what was usable when listed is kept, and all else became usable since. */
  lemma KeptOrNew(now: State, listing: State, listed: seq<Session>, identityId: ID, at: int, idle: int, maxActive: int)
    requires Keyed(listing.sessions) && IsListing(listing.sessions, identityId, listed)
    requires Evictions(listed, at, idle, maxActive).Ok?
    ensures
      var after := WithSaved(now.sessions, Evictions(listed, at, idle, maxActive).value);
      var usable := UsableOf(listed, at, idle);
      UsableSessions(after, identityId, at, idle)
      <= IdsOf(usable[..Kept(|usable|, maxActive)])
         + (UsableSessions(now.sessions, identityId, at, idle) - UsableSessions(listing.sessions, identityId, at, idle))
  {
    var usable := UsableOf(listed, at, idle);
    var k := Kept(|usable|, maxActive);
    var evicted := RevokeAll(usable[k..], at).value;
    ListingUsable(listing.sessions, identityId, at, idle, listed);
    RevokeAllSpec(usable[k..], at);
    var left := UsableSessions(WithSaved(now.sessions, evicted), identityId, at, idle);
    forall j | k <= j < |usable| ensures usable[j].id !in left {
      assert evicted[j - k].id == usable[j].id;
      SavedNotUsable(now.sessions, evicted, identityId, at, idle, usable[j].id);
    }
    forall id | id in left && id in UsableSessions(listing.sessions, identityId, at, idle) ensures id in IdsOf(usable[..k]) {
      var i :| 0 <= i < |usable| && usable[i] == listing.sessions[id].session;
      assert usable[i].id == id;
      assert usable[..k][i].id == id;
    }
    SavingEndsOnly(now.sessions, evicted, identityId, at, idle);
  }

  lemma KeptCount(listing: State, listed: seq<Session>, identityId: ID, at: int, idle: int, maxActive: int)
    requires Keyed(listing.sessions) && IsListing(listing.sessions, identityId, listed)
    ensures var usable := UsableOf(listed, at, idle);
      |IdsOf(usable[..Kept(|usable|, maxActive)])| <= Max(0, maxActive - 1)
  {
    ListingUsable(listing.sessions, identityId, at, idle, listed);
    var usable := UsableOf(listed, at, idle);
    var kept := usable[..Kept(|usable|, maxActive)];
    assert forall i | 0 <= i < |kept| :: kept[i] == usable[i];
    IdsOfDistinct(kept);
  }

  /** However logins overlap: when a login has committed, its identity has at most as many usable sessions as the cap
      allows, one more for each login that committed since it listed the sessions, and one more for each idle session an
      activity write has woken since. */
  lemma OverlapCap(run: seq<World>, steps: seq<Step>, c: Config, i: nat, identityId: ID)
    requires Run(run, steps, c) && i < |steps| && steps[i].Login? && run[i + 1] != run[i]
    requires identityId == run[steps[i].recordAt].store.credentials[steps[i].credentialId].identityId
    ensures
      var at, from := steps[i].createdAt, steps[i].listedAt;
      |UsableAt(run[i + 1], identityId, at, c)|
      <= Max(1, c.maxActive) + Opened(run, steps, from, i, identityId, at, c) + Revived(run, steps, from, i, identityId, at, c)
  {
    var s := steps[i];
    var from, at := s.listedAt, s.createdAt;
    assert Enabled(run, i, s, c) && run[i + 1] == LoggedIn(run[i], run[s.recordAt].store, run[from].store, s, c);
    RunKeyed(run, steps, c, i);
    RunKeyed(run, steps, c, from);
    var usable := UsableOf(s.listed, at, c.idleTimeoutMs);
    var kept := IdsOf(usable[..Kept(|usable|, c.maxActive)]);
    var grown := UsableAt(run[i], identityId, at, c) - UsableAt(run[from], identityId, at, c);
    KeptOrNew(run[i].store, run[from].store, s.listed, identityId, at, c.idleTimeoutMs, c.maxActive);
    KeptCount(run[from].store, s.listed, identityId, at, c.idleTimeoutMs, c.maxActive);
    NewlyUsable(run, steps, c, from, i, identityId, at);
    SubsetSize(UsableAt(run[i + 1], identityId, at, c), kept + grown + {s.sessionId});
  }

  /** The bound is met: two logins that list the same empty store under a cap of one leave two sessions. */
  lemma TwoLoginsExceed(s: State, a: Session, b: Session, credential: Credential, digest: string, idle: int)
    requires s.sessions == map[] && credential.id in s.credentials && s.credentials[credential.id] == credential
    requires credential.status.CredentialActive? && a.id != b.id && a.identityId == b.identityId
    requires Usable(a, b.createdAt, idle) && Usable(b, b.createdAt, idle)
    ensures IsListing(s.sessions, a.identityId, [])
    ensures Evictions([], a.createdAt, idle, 1) == Evictions([], b.createdAt, idle, 1) == Ok([])
    ensures
      var first := SessionCommit(s, a, credential, digest, []);
      && first.Ok?
      && var second := SessionCommit(first.value, b, credential, digest, []);
      && second.Ok?
      && |UsableSessions(second.value.sessions, b.identityId, b.createdAt, idle)| == 2
  {
    var first := SessionCommit(s, a, credential, digest, []).value;
    var second := SessionCommit(first, b, credential, digest, []).value;
    assert UsableSessions(second.sessions, b.identityId, b.createdAt, idle) == {a.id, b.id};
  }
}
