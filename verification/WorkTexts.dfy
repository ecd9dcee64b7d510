/**
 * The words and patterns of work contexts and envelopes, what makes a work context valid, and what the two readers make of
 * the same tree (src/shared/provenance, src/shared/events/index.ts, src/modules/audit/infra/postgres/codec.ts).
 */
module WorkTexts {
  import opened Prelude
  import opened Ids
  import opened JsonTree
  import P = Provenance
  import W = WorkCodec
  import E = Envelopes
  import Events

  // ----- Words and patterns -----

  /** The words on the wire. */
  lemma WordsAre()
    ensures W.KindText(P.User) == "user" && W.KindText(P.Service) == "service" && W.KindText(P.System) == "system"
    ensures W.ActorOut(P.Anonymous) == Object([Field(Kind, String("anonymous"))])
    ensures W.ReferenceKindText(P.Scope) == "scope" && W.ReferenceKindText(P.Work) == "work" && W.ReferenceKindText(P.Event) == "event"
    ensures W.OriginText(P.Request) == "request" && W.OriginText(P.Message) == "message" && W.OriginText(P.Schedule) == "schedule"
    ensures W.OriginText(P.Replayed) == "replay" && W.OriginText(P.Backfill) == "backfill" && W.OriginText(P.Startup) == "startup"
    ensures W.SourceText(P.Local) == "local" && W.SourceText(P.External) == "external"
  {
  }

  /** `/^[A-Za-z0-9._:/-]{1,128}$/` */
  lemma IdentityIs(s: string)
    ensures P.IsIdentity(s) <==>
      1 <= |s| <= 128 && forall i | 0 <= i < |s| ::
        s[i] in "abcdefghijklmnopqrstuvwxyz" || s[i] in "ABCDEFGHIJKLMNOPQRSTUVWXYZ" || s[i] in "0123456789" || s[i] in "._:/-"
  {
    forall i | 0 <= i < |s|
      ensures IsLowerLetter(s[i]) <==> s[i] in "abcdefghijklmnopqrstuvwxyz"
      ensures IsDigit(s[i]) <==> s[i] in "0123456789"
      ensures 'A' <= s[i] <= 'Z' <==> s[i] in "ABCDEFGHIJKLMNOPQRSTUVWXYZ"
    {
      LetterIs(s[i]);
      CapitalIs(s[i]);
    }
  }

  lemma CapitalIs(c: char)
    ensures 'A' <= c <= 'Z' <==> c in "ABCDEFGHIJKLMNOPQRSTUVWXYZ"
  {
    var letters := "ABCDEFGHIJKLMNOPQRSTUVWXYZ";
    if 'A' <= c <= 'Z' { assert letters[c as int - 65] == c; }
  }

  /** `/^[a-z][a-z0-9_.:-]{0,127}$/` */
  lemma OperationIs(s: string)
    ensures P.IsOperation(s) <==>
      1 <= |s| <= 128 && s[0] in "abcdefghijklmnopqrstuvwxyz" && forall i | 0 < i < |s| ::
        s[i] in "abcdefghijklmnopqrstuvwxyz" || s[i] in "0123456789" || s[i] in "_.:-"
  {
    forall i | 0 <= i < |s|
      ensures IsLowerLetter(s[i]) <==> s[i] in "abcdefghijklmnopqrstuvwxyz"
      ensures IsDigit(s[i]) <==> s[i] in "0123456789"
    {
      LetterIs(s[i]);
    }
  }

  /** `/^[a-z0-9_.-]{1,64}$/` */
  lemma ConsumerIs(s: string)
    ensures Events.IsConsumer(s) <==>
      1 <= |s| <= 64 && forall i | 0 <= i < |s| ::
        s[i] in "abcdefghijklmnopqrstuvwxyz" || s[i] in "0123456789" || s[i] in "_.-"
  {
    forall i | 0 <= i < |s|
      ensures IsLowerLetter(s[i]) <==> s[i] in "abcdefghijklmnopqrstuvwxyz"
      ensures IsDigit(s[i]) <==> s[i] in "0123456789"
    {
      LetterIs(s[i]);
    }
  }

  /** A name and a version of one to six digits, the first not 0. */
  ghost predicate NameAndVersion(s: string, name: string, version: string) {
    && s == name + ".v" + version && 1 <= |name| <= 120 && 1 <= |version| <= 6 && version[0] in "123456789"
    && (forall c | c in name :: c in "abcdefghijklmnopqrstuvwxyz" || c in "0123456789" || c in "_.-")
    && (forall c | c in version :: c in "0123456789")
  }

  lemma NamesAre(name: string)
    ensures (forall c | c in name :: IsLowerLetter(c) || IsDigit(c) || c in "_.-")
       <==> (forall c | c in name :: c in "abcdefghijklmnopqrstuvwxyz" || c in "0123456789" || c in "_.-")
  {
    forall c: char | c in name
      ensures IsLowerLetter(c) <==> c in "abcdefghijklmnopqrstuvwxyz"
      ensures IsDigit(c) <==> c in "0123456789"
    {
      LetterIs(c);
    }
  }

  lemma VersionsAre(version: string)
    ensures (forall c | c in version :: IsDigit(c)) <==> (forall c | c in version :: c in "0123456789")
  {
    forall c: char | c in version ensures IsDigit(c) <==> c in "0123456789" {
      LetterIs(c);
    }
  }

  lemma SplitType(s: string, i: nat)
    requires E.IsTypeWith(s, i)
    ensures NameAndVersion(s, s[..i], s[i + 2..])
  {
    NamesAre(s[..i]);
    VersionsAre(s[i + 2..]);
    NonZero(s[i + 2]);
    assert s == s[..i] + s[i..i + 2] + s[i + 2..];
  }

  lemma JoinType(s: string, name: string, version: string)
    requires NameAndVersion(s, name, version)
    ensures E.IsTypeWith(s, |name|) && |name| < |s|
  {
    var i := |name|;
    assert s[..i] == name && s[i..i + 2] == ".v" && s[i + 2..] == version && s[i + 2] == version[0];
    NamesAre(name);
    VersionsAre(version);
    NonZero(version[0]);
  }

  /** `/^[a-z0-9_.-]{1,120}\.v[1-9][0-9]{0,5}$/`, at most 128 characters. */
  lemma TypeIs(s: string)
    ensures E.IsType(s) <==> |s| <= 128 && exists name, version :: NameAndVersion(s, name, version)
  {
    if E.IsType(s) {
      var i :| 0 <= i < |s| && E.IsTypeWith(s, i);
      SplitType(s, i);
    }
    if name, version :| NameAndVersion(s, name, version) { JoinType(s, name, version); }
  }

  lemma NonZero(c: char)
    ensures '1' <= c <= '9' <==> c in "123456789"
  {
    var digits := "123456789";
    if '1' <= c <= '9' { assert digits[c as int - 49] == c; }
  }

  // ----- Validity -----

  /** Someone acting on behalf of another is named, and so is the other, who is somebody else. */
  lemma AttributionIff(a: P.Attribution)
    ensures P.ValidAttribution(a) <==>
      && (a.initiator.Some? && a.initiator.value.Named? ==> P.IsIdentity(a.initiator.value.identity))
      && (a.onBehalfOf.Some? ==>
            && a.initiator.Some? && a.initiator.value.Named? && a.onBehalfOf.value.Named?
            && P.IsIdentity(a.onBehalfOf.value.identity)
            && (a.initiator.value.kind != a.onBehalfOf.value.kind || a.initiator.value.identity != a.onBehalfOf.value.identity))
      && (a.tenant.Some? ==> P.IsIdentity(a.tenant.value))
  {
  }

  /** A depth counts up from a cause: a positive depth needs one, a local root has none; a work never causes or replays
      itself; and replays, and they alone, say what they replay. */
  lemma ValidIff(w: P.Snapshot)
    ensures P.Valid(w) <==>
      && IsId(w.workId) && IsId(w.correlationId) && P.IsOperation(w.operation) && P.ValidAttribution(w.attribution)
      && (w.origin == Some(P.Replayed) <==> w.replay.Some?)
      && (w.causation.Some? ==>
            IsId(w.causation.value.id) && (w.causation.value.kind.Work? ==> w.causation.value.id != w.workId))
      && (w.depth.Some? ==> 0 <= w.depth.value < 0x1_0000_0000)
      && (w.depth.Some? && w.depth.value > 0 ==> w.causation.Some?)
      && (w.depth == Some(0) && w.correlationSource.Local? ==> w.causation.None?)
      && (w.replay.Some? ==>
            && IsId(w.replay.value.runId) && IsId(w.replay.value.source.id)
            && (w.replay.value.source.kind.Work? ==> w.replay.value.source.id != w.workId)
            && P.IsLayout(w.replay.value.members))
  {
  }

  // ----- The two readers -----

  lemma ActorsAgree(value: Option<Json>)
    requires W.ActorIn(value).Some?
    ensures W.StoredActor(value) == W.ActorIn(value)
  {
  }

  lemma ReferencesAgree(value: Option<Json>)
    requires W.ReferenceIn(value).Some?
    ensures W.StoredReference(value) == W.ReferenceIn(value)
  {
  }

  lemma AttributionsAgree(value: Option<Json>)
    requires W.AttributionIn(value).Some?
    ensures W.StoredAttribution(value) == W.AttributionIn(value)
  {
    var f := value.value.fields;
    ActorsAgree(Get(f, Initiator));
    ActorsAgree(Get(f, OnBehalfOf));
    assert W.TextIn(Present(Get(f, TenantKey))) == W.TextIn(Get(f, TenantKey));
  }

  lemma ReplaysAgree(value: Option<Json>)
    requires W.ReplayIn(value).Some?
    ensures W.StoredReplay(value) == W.ReplayIn(value)
  {
    if Present(value).Some? { ReferencesAgree(Get(value.value.fields, Source)); }
  }

  lemma OriginsAgree(value: Option<Json>)
    requires W.OriginIn(value).Some?
    ensures W.StoredOrigin(value) == if value == Some(Null) then None else W.OriginIn(value)
  {
  }

  lemma DepthsAgree(value: Option<Json>)
    requires W.DepthIn(value).Some?
    ensures W.StoredDepth(value) == if value == Some(Null) then None else W.DepthIn(value)
  {
  }

  /** Whatever the envelope's reader accepts, the store's reader reads the same, unless origin or depth is an explicit null:
      the first takes that as absent, the second refuses it. */
  lemma ReadersAgree(fields: seq<Field>)
    requires W.WorkIn(Some(Object(fields))).Some?
    ensures
      W.DecodeWork(Some(Object(fields)))
      == if Get(fields, OriginKey) == Some(Null) || Get(fields, Depth) == Some(Null) then None else W.WorkIn(Some(Object(fields)))
  {
    W.ReadersAssemble(fields);
    AttributionsAgree(Get(fields, AttributionKey));
    ReferencesAgree(Get(fields, CausationKey));
    ReplaysAgree(Get(fields, ReplayKey));
    OriginsAgree(Get(fields, OriginKey));
    DepthsAgree(Get(fields, Depth));
  }

  /** A work context with a member the envelope does not know is refused by its reader. */
  lemma UnknownMemberRefused(fields: seq<Field>, i: nat)
    requires i < |fields|
    requires fields[i].key !in {WorkId, CorrelationId, CorrelationSource, Operation, AttributionKey, CausationKey, OriginKey, Depth, ReplayKey}
    ensures W.WorkIn(Some(Object(fields))) == None
  {
    NotOnly(fields, W.WORK_KEYS, i);
  }

  lemma NotOnly(fields: seq<Field>, allowed: set<Key>, i: nat)
    requires i < |fields| && fields[i].key !in allowed
    ensures !OnlyKeys(fields, allowed)
  {
  }

  // ----- Envelopes -----

  ghost function KeySet(fields: seq<Field>): set<Key> { set i | 0 <= i < |fields| :: fields[i].key }

  lemma {:induction false} GetFound(fields: seq<Field>, key: Key)
    ensures Get(fields, key).Some? <==> key in KeySet(fields)
    decreases |fields|
  {
    if fields != [] {
      GetFound(fields[1..], key);
      if key in KeySet(fields[1..]) {
        var i :| 0 <= i < |fields[1..]| && fields[1..][i].key == key;
        assert fields[i + 1].key == key;
      }
      if key in KeySet(fields) && fields[0].key != key {
        var i :| 0 <= i < |fields| && fields[i].key == key;
        assert fields[1..][i - 1].key == key;
      }
    }
  }

  lemma {:induction false} KeySetSize(fields: seq<Field>)
    requires KeysOk(Keys(fields))
    ensures |KeySet(fields)| == |fields|
    decreases |fields|
  {
    if fields != [] {
      var rest := fields[1..];
      assert Keys(rest) == Keys(fields)[1..];
      forall i, j | 0 <= i < j < |rest| ensures Keys(rest)[i] == Keys(fields)[i + 1] && Keys(rest)[j] == Keys(fields)[j + 1] {
      }
      assert KeysOk(Keys(rest));
      KeySetSize(rest);
      forall key ensures key in KeySet(fields) <==> key == fields[0].key || key in KeySet(rest) {
        if key in KeySet(rest) {
          var i :| 0 <= i < |rest| && rest[i].key == key;
          assert fields[i + 1].key == key;
        }
        if key in KeySet(fields) && key != fields[0].key {
          var i :| 0 <= i < |fields| && fields[i].key == key;
          assert rest[i - 1].key == key;
        }
      }
      assert KeySet(fields) == KeySet(rest) + {fields[0].key};
      forall i | 0 <= i < |rest| ensures rest[i].key != fields[0].key {
        assert Keys(fields)[0] != Keys(fields)[i + 1];
      }
    }
  }

  /** A decoded envelope has its six members, perhaps a subject and a tenant, and no other. */
  lemma DecodedMembers(raw: seq<bv8>, wire: E.Wire)
    requires E.RoundTrips(wire) && E.Decode(raw, wire).Some?
    ensures |raw| <= 65536 && wire.read(raw).Some? && wire.read(raw).value.Object?
    ensures
      var keys := KeySet(wire.read(raw).value.fields);
      {V, Id, Type, OccurredAtMs, WorkKey, Payload} <= keys <= {V, Id, Type, OccurredAtMs, WorkKey, Payload, SubjectKey, TenantKey}
  {
    var fields := wire.read(raw).value.fields;
    assert E.HeadOk(fields);
    MembersOf(fields);
  }

  lemma Required(fields: seq<Field>)
    requires E.HeadOk(fields)
    ensures {V, Id, Type, OccurredAtMs, WorkKey, Payload} <= KeySet(fields)
    ensures E.Optionals(fields) == (if SubjectKey in KeySet(fields) then 1 else 0) + (if TenantKey in KeySet(fields) then 1 else 0)
  {
    GetFound(fields, V);
    GetFound(fields, Id);
    GetFound(fields, Type);
    GetFound(fields, OccurredAtMs);
    GetFound(fields, WorkKey);
    GetFound(fields, Payload);
    GetFound(fields, SubjectKey);
    GetFound(fields, TenantKey);
  }

  lemma MembersOf(fields: seq<Field>)
    requires KeysOk(Keys(fields)) && E.HeadOk(fields)
    ensures {V, Id, Type, OccurredAtMs, WorkKey, Payload} <= KeySet(fields)
    ensures KeySet(fields) <= {V, Id, Type, OccurredAtMs, WorkKey, Payload, SubjectKey, TenantKey}
  {
    KeySetSize(fields);
    Required(fields);
    AllThere(KeySet(fields), |fields|);
  }

  lemma AllThere(keys: set<Key>, n: nat)
    requires {V, Id, Type, OccurredAtMs, WorkKey, Payload} <= keys && |keys| == n
    requires n == 6 + (if SubjectKey in keys then 1 else 0) + (if TenantKey in keys then 1 else 0)
    ensures keys <= {V, Id, Type, OccurredAtMs, WorkKey, Payload, SubjectKey, TenantKey}
  {
    var six := {V, Id, Type, OccurredAtMs, WorkKey, Payload};
    var some := six + (if SubjectKey in keys then {SubjectKey} else {}) + (if TenantKey in keys then {TenantKey} else {});
    assert |six| == 6;
    assert |some| == n;
    SubsetIsAll(some, keys);
  }

  lemma {:induction false} SubsetIsAll<T>(a: set<T>, b: set<T>)
    requires a <= b && |a| == |b|
    ensures a == b
    decreases |a|
  {
    if x :| x in a {
      SubsetIsAll(a - {x}, b - {x});
      assert a == (a - {x}) + {x} && b == (b - {x}) + {x};
    } else {
      assert b == {};
    }
  }
}
