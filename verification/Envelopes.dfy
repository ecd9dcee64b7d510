/** Event envelopes and the check that ties them to the work that creates them
 * (src/shared/events/index.ts, src/shared/events/provenance.ts). */
module Envelopes {
  import opened Prelude
  import opened Ids
  import opened JsonTree
  import P = Provenance
  import W = WorkCodec

  const MAX_BYTES := 65536
  const MAX_TIME := 253402300799999

  /** UTF-8 JSON text and back, as `JSON.stringify` and `JSON.parse` over Buffers. */
  datatype Wire = Wire(write: Json -> seq<bv8>, read: seq<bv8> -> Option<Json>, doubles: Doubles)

  /** Reading yields values, and reading what was written gives a value back. */
  ghost predicate RoundTrips(wire: Wire) {
    && HoldSafe(wire.doubles)
    && (forall tree: Json | IsValue(tree, wire.doubles) :: wire.read(wire.write(tree)) == Some(tree))
    && (forall raw: seq<bv8> | wire.read(raw).Some? :: IsValue(wire.read(raw).value, wire.doubles))
  }

  datatype Subject = Subject(kind: string, id: ID)

  datatype Envelope = Envelope(id: ID, raw: seq<bv8>, work: P.Snapshot, kind: string, occurredAtMs: int,
                               subject: Option<Subject>, tenant: Option<ID>)

  /** A name of i characters, `.v`, and a version of up to six digits that does not start with 0. */
  predicate IsTypeWith(s: string, i: nat) {
    && 1 <= i <= 120 && i + 2 < |s| <= i + 8
    && s[i..i + 2] == ".v" && '1' <= s[i + 2] <= '9'
    && (forall c | c in s[..i] :: IsLowerLetter(c) || IsDigit(c) || c in "_.-")
    && (forall c | c in s[i + 2..] :: IsDigit(c))
  }

  /** `/^[a-z0-9_.-]{1,120}\.v[1-9][0-9]{0,5}$/`, at most 128 characters. */
  predicate IsType(s: string) {
    |s| <= 128 && exists i | 0 <= i < |s| :: IsTypeWith(s, i)
  }

  /** Absent is no subject; null is refused. */
  function SubjectIn(value: Option<Json>): W.Optional<Subject> {
    if value.None? then Some(None)
    else
      var fields := W.FieldsIn(value);
      if fields.None? || !OnlyKeys(fields.value, {Kind, Id}) then None
      else
        var kind, id := W.TextIn(Get(fields.value, Kind)), W.IdIn(Get(fields.value, Id));
        if kind.None? || !IsCode(kind.value, 64) || id.None? then None else Some(Some(Subject(kind.value, id.value)))
  }

  function SubjectOut(s: Subject): Json { Object([Field(Kind, String(s.kind)), Field(Id, String(s.id))]) }

  function TenantIn(value: Option<Json>): W.Optional<ID> {
    if value.None? then Some(None) else if W.IdIn(value).None? then None else Some(W.IdIn(value))
  }

  /** The parts of a decoded envelope that are rewritten in its normal form. */
  datatype Parts = Parts(id: ID, work: P.Snapshot, subject: Option<Subject>, tenant: Option<ID>)

  function Normal(fields: seq<Field>, p: Parts): seq<Field> {
    var a := Put(Put(fields, Id, String(p.id)), WorkKey, W.WorkOut(p.work));
    var b := if p.subject.None? then a else Put(a, SubjectKey, SubjectOut(p.subject.value));
    if p.tenant.None? then b else Put(b, TenantKey, String(p.tenant.value))
  }

  function Optionals(fields: seq<Field>): nat {
    (if Get(fields, SubjectKey).Some? then 1 else 0) + (if Get(fields, TenantKey).Some? then 1 else 0)
  }

  /** The members that are checked but not rewritten. */
  predicate HeadOk(fields: seq<Field>) {
    && |fields| == 6 + Optionals(fields)
    && Get(fields, Id).Some? && Get(fields, WorkKey).Some?
    && Get(fields, V) == Some(Number(1))
    && W.TextIn(Get(fields, Type)).Some? && IsType(W.TextIn(Get(fields, Type)).value)
    && Get(fields, OccurredAtMs).Some? && Get(fields, OccurredAtMs).value.Number?
    && 0 <= Get(fields, OccurredAtMs).value.n <= MAX_TIME
    && W.FieldsIn(Get(fields, Payload)).Some?
  }

  function PartsIn(fields: seq<Field>): Option<Parts> {
    var id, work := W.IdIn(Get(fields, Id)), W.WorkIn(Get(fields, WorkKey));
    var subject, tenant := SubjectIn(Get(fields, SubjectKey)), TenantIn(Get(fields, TenantKey));
    if id.None? || work.None? || subject.None? || tenant.None? then None
    else Some(Parts(id.value, work.value, subject.value, tenant.value))
  }

  /** The envelope an object stands for, kept in its normal form. */
  function DecodeFields(fields: seq<Field>, wire: Wire): Option<Envelope> {
    if !HeadOk(fields) || PartsIn(fields).None? then None
    else
      var p := PartsIn(fields).value;
      var bytes := wire.write(Object(Normal(fields, p)));
      if |bytes| > MAX_BYTES then None
      else Some(Envelope(p.id, bytes, p.work, Get(fields, Type).value.text, Get(fields, OccurredAtMs).value.n, p.subject, p.tenant))
  }

  function Decode(raw: seq<bv8>, wire: Wire): Option<Envelope> {
    if |raw| > MAX_BYTES then None
    else
      match wire.read(raw)
      case Some(Object(fields)) => DecodeFields(fields, wire)
      case _ => None
  }

  // ----- Decoding is idempotent -----

  lemma SubjectComesBack(s: Option<Subject>)
    requires s.Some? ==> IsCode(s.value.kind, 64) && IsId(s.value.id)
    ensures SubjectIn(if s.Some? then Some(SubjectOut(s.value)) else None) == Some(s)
  {
    if s.Some? {
      var fields := SubjectOut(s.value).fields;
      assert fields[1..][0] == fields[1];
      assert Get(fields, Id) == Some(String(s.value.id));
    }
  }

  ghost predicate PartsOk(p: Parts) {
    && IsId(p.id) && P.Valid(p.work) && p.work.Plain() == p.work
    && (p.subject.Some? ==> IsCode(p.subject.value.kind, 64) && IsId(p.subject.value.id))
    && (p.tenant.Some? ==> IsId(p.tenant.value))
  }

  lemma IdInIsId(value: Option<Json>)
    requires W.IdIn(value).Some?
    ensures IsId(W.IdIn(value).value)
  {
    ParseIdempotent(value.value.text);
  }

  lemma SubjectInOk(value: Option<Json>)
    requires SubjectIn(value).Some? && SubjectIn(value).value.Some?
    ensures var s := SubjectIn(value).value.value; IsCode(s.kind, 64) && IsId(s.id)
  {
    IdInIsId(Get(value.value.fields, Id));
  }

  lemma PartsInOk(fields: seq<Field>)
    requires PartsIn(fields).Some?
    ensures PartsOk(PartsIn(fields).value)
  {
    var p := PartsIn(fields).value;
    IdInIsId(Get(fields, Id));
    W.WorkInIsCanonical(Get(fields, WorkKey));
    if p.tenant.Some? { IdInIsId(Get(fields, TenantKey)); }
    if p.subject.Some? { SubjectInOk(Get(fields, SubjectKey)); }
  }

  /** Members of the normal form. */
  lemma NormalGets(fields: seq<Field>, p: Parts, key: Key)
    ensures Get(Normal(fields, p), key)
         == if key == TenantKey && p.tenant.Some? then Some(String(p.tenant.value))
            else if key == SubjectKey && p.subject.Some? then Some(SubjectOut(p.subject.value))
            else if key == WorkKey then Some(W.WorkOut(p.work))
            else if key == Id then Some(String(p.id))
            else Get(fields, key)
  {
    var first := Put(fields, Id, String(p.id));
    var a := Put(first, WorkKey, W.WorkOut(p.work));
    var b := if p.subject.None? then a else Put(a, SubjectKey, SubjectOut(p.subject.value));
    GetPut(fields, Id, String(p.id), key);
    GetPut(first, WorkKey, W.WorkOut(p.work), key);
    if p.subject.Some? { GetPut(a, SubjectKey, SubjectOut(p.subject.value), key); }
    if p.tenant.Some? { GetPut(b, TenantKey, String(p.tenant.value), key); }
  }

  lemma NormalLength(fields: seq<Field>, p: Parts)
    requires Get(fields, Id).Some? && Get(fields, WorkKey).Some?
    requires (p.subject.Some? ==> Get(fields, SubjectKey).Some?) && (p.tenant.Some? ==> Get(fields, TenantKey).Some?)
    ensures |Normal(fields, p)| == |fields|
  {
    var first := Put(fields, Id, String(p.id));
    var a := Put(first, WorkKey, W.WorkOut(p.work));
    var b := if p.subject.None? then a else Put(a, SubjectKey, SubjectOut(p.subject.value));
    PutKeepsLength(fields, Id, String(p.id));
    GetPut(fields, Id, String(p.id), WorkKey);
    PutKeepsLength(first, WorkKey, W.WorkOut(p.work));
    if p.subject.Some? {
      GetPut(fields, Id, String(p.id), SubjectKey);
      GetPut(first, WorkKey, W.WorkOut(p.work), SubjectKey);
      PutKeepsLength(a, SubjectKey, SubjectOut(p.subject.value));
    }
    if p.tenant.Some? {
      GetPut(fields, Id, String(p.id), TenantKey);
      GetPut(first, WorkKey, W.WorkOut(p.work), TenantKey);
      if p.subject.Some? { GetPut(a, SubjectKey, SubjectOut(p.subject.value), TenantKey); }
      PutKeepsLength(b, TenantKey, String(p.tenant.value));
    }
  }

  lemma NormalHead(fields: seq<Field>, p: Parts)
    requires HeadOk(fields) && PartsIn(fields) == Some(p)
    ensures HeadOk(Normal(fields, p))
    ensures Get(Normal(fields, p), Type) == Get(fields, Type) && Get(Normal(fields, p), OccurredAtMs) == Get(fields, OccurredAtMs)
  {
    NormalLength(fields, p);
    NormalGets(fields, p, V);
    NormalGets(fields, p, Type);
    NormalGets(fields, p, OccurredAtMs);
    NormalGets(fields, p, Payload);
    NormalGets(fields, p, Id);
    NormalGets(fields, p, WorkKey);
    NormalGets(fields, p, SubjectKey);
    NormalGets(fields, p, TenantKey);
  }

  lemma NormalSubject(fields: seq<Field>, p: Parts)
    requires PartsOk(p) && SubjectIn(Get(fields, SubjectKey)) == Some(p.subject)
    ensures SubjectIn(Get(Normal(fields, p), SubjectKey)) == Some(p.subject)
  {
    NormalGets(fields, p, SubjectKey);
    SubjectComesBack(p.subject);
  }

  lemma NormalTenant(fields: seq<Field>, p: Parts)
    requires PartsOk(p) && TenantIn(Get(fields, TenantKey)) == Some(p.tenant)
    ensures TenantIn(Get(Normal(fields, p), TenantKey)) == Some(p.tenant)
  {
    NormalGets(fields, p, TenantKey);
  }

  lemma NormalIdAndWork(fields: seq<Field>, p: Parts)
    requires PartsOk(p)
    ensures W.IdIn(Get(Normal(fields, p), Id)) == Some(p.id) && W.WorkIn(Get(Normal(fields, p), WorkKey)) == Some(p.work)
  {
    NormalGets(fields, p, Id);
    NormalGets(fields, p, WorkKey);
    W.WorkComesBack(p.work);
  }

  lemma NormalParts(fields: seq<Field>, p: Parts)
    requires PartsIn(fields) == Some(p)
    ensures PartsIn(Normal(fields, p)) == Some(p)
  {
    PartsInOk(fields);
    NormalSubject(fields, p);
    NormalTenant(fields, p);
    NormalIdAndWork(fields, p);
  }

  lemma NormalTwice(fields: seq<Field>, p: Parts)
    ensures Normal(Normal(fields, p), p) == Normal(fields, p)
  {
    var n := Normal(fields, p);
    NormalGets(fields, p, Id);
    NormalGets(fields, p, WorkKey);
    NormalGets(fields, p, SubjectKey);
    NormalGets(fields, p, TenantKey);
    PutSame(n, Id, String(p.id));
    PutSame(n, WorkKey, W.WorkOut(p.work));
    if p.subject.Some? { PutSame(n, SubjectKey, SubjectOut(p.subject.value)); }
    if p.tenant.Some? { PutSame(n, TenantKey, String(p.tenant.value)); }
  }

  lemma NormalDecodes(fields: seq<Field>, wire: Wire)
    requires DecodeFields(fields, wire).Some?
    ensures DecodeFields(Normal(fields, PartsIn(fields).value), wire) == DecodeFields(fields, wire)
  {
    var p := PartsIn(fields).value;
    NormalHead(fields, p);
    NormalParts(fields, p);
    NormalTwice(fields, p);
  }

  lemma DecodeReads(raw: seq<bv8>, fields: seq<Field>, wire: Wire)
    requires |raw| <= MAX_BYTES && wire.read(raw) == Some(Object(fields))
    ensures Decode(raw, wire) == DecodeFields(fields, wire)
  {
  }

  lemma NormalBytes(fields: seq<Field>, wire: Wire)
    requires DecodeFields(fields, wire).Some?
    ensures var e := DecodeFields(fields, wire).value;
      e.raw == wire.write(Object(Normal(fields, PartsIn(fields).value))) && |e.raw| <= MAX_BYTES
  {
  }

  // ----- What is written is a value -----

  lemma ActorIsValue(a: Option<P.Actor>, d: Doubles)
    ensures W.OptionalActor(a).Some? ==> IsValue(W.OptionalActor(a).value, d)
  {
  }

  lemma ReferenceIsValue(r: P.Reference, d: Doubles)
    ensures IsValue(W.ReferenceOut(r), d)
  {
  }

  lemma ReplayIsValue(r: P.Replay, d: Doubles)
    ensures IsValue(W.ReplayOut(r), d)
  {
    ReferenceIsValue(r.source, d);
  }

  lemma AttributionIsValue(a: P.Attribution, d: Doubles)
    ensures IsValue(Object(Build(W.AttributionSpecs(a))), d)
  {
    ActorIsValue(a.initiator, d);
    ActorIsValue(a.onBehalfOf, d);
    BuiltIsValue(W.AttributionSpecs(a), d);
  }

  lemma WorkIsValue(w: P.Snapshot, d: Doubles)
    requires P.Valid(w) && HoldSafe(d)
    ensures IsValue(W.WorkOut(w), d)
  {
    var specs := W.WorkSpecs(w);
    AttributionIsValue(w.attribution, d);
    if w.causation.Some? { ReferenceIsValue(w.causation.value, d); }
    if w.replay.Some? { ReplayIsValue(w.replay.value, d); }
    W.WorkSpecsDistinct(w);
    BuiltIsValue(specs, d);
  }

  lemma SubjectIsValue(s: Subject, d: Doubles)
    ensures IsValue(SubjectOut(s), d)
  {
  }

  /** The normal form of a value is a value. */
  lemma NormalIsValue(fields: seq<Field>, p: Parts, d: Doubles)
    requires IsValue(Object(fields), d) && HoldSafe(d) && HeadOk(fields) && PartsIn(fields) == Some(p)
    ensures IsValue(Object(Normal(fields, p)), d)
  {
    PartsInOk(fields);
    WorkIsValue(p.work, d);
    var first := Put(fields, Id, String(p.id));
    var a := Put(first, WorkKey, W.WorkOut(p.work));
    var b := if p.subject.None? then a else Put(a, SubjectKey, SubjectOut(p.subject.value));
    PutIsValue(fields, Id, String(p.id), d);
    GetPut(fields, Id, String(p.id), WorkKey);
    PutIsValue(first, WorkKey, W.WorkOut(p.work), d);
    if p.subject.Some? {
      GetPut(fields, Id, String(p.id), SubjectKey);
      GetPut(first, WorkKey, W.WorkOut(p.work), SubjectKey);
      SubjectIsValue(p.subject.value, d);
      PutIsValue(a, SubjectKey, SubjectOut(p.subject.value), d);
    }
    if p.tenant.Some? {
      GetPut(fields, Id, String(p.id), TenantKey);
      GetPut(first, WorkKey, W.WorkOut(p.work), TenantKey);
      if p.subject.Some? { GetPut(a, SubjectKey, SubjectOut(p.subject.value), TenantKey); }
      PutIsValue(b, TenantKey, String(p.tenant.value), d);
    }
  }

  /** An envelope decodes from its own bytes to itself. */
  lemma DecodeIdempotent(raw: seq<bv8>, wire: Wire)
    requires RoundTrips(wire) && Decode(raw, wire).Some?
    ensures Decode(Decode(raw, wire).value.raw, wire) == Decode(raw, wire)
  {
    var fields := wire.read(raw).value.fields;
    var normal := Normal(fields, PartsIn(fields).value);
    DecodeReads(raw, fields, wire);
    NormalBytes(fields, wire);
    NormalDecodes(fields, wire);
    NormalIsValue(fields, PartsIn(fields).value, wire.doubles);
    assert wire.read(wire.write(Object(normal))) == Some(Object(normal));
    DecodeReads(wire.write(Object(normal)), normal, wire);
  }

  // ----- Creating an envelope, and the provenance check -----

  function CreateSpecs(id: ID, kind: string, occurredAtMs: int, work: P.Snapshot, payload: seq<Field>,
                       subject: Option<Subject>, tenant: Option<ID>): seq<Spec>
  {
    [Spec(V, Some(Number(1))), Spec(Id, Some(String(id))), Spec(Type, Some(String(kind))),
     Spec(OccurredAtMs, Some(Number(occurredAtMs))), Spec(WorkKey, Some(W.WorkOut(work))),
     Spec(Payload, Some(Object(payload))),
     Spec(SubjectKey, if subject.Some? then Some(SubjectOut(subject.value)) else None),
     Spec(TenantKey, if tenant.Some? then Some(String(tenant.value)) else None)]
  }

  function OrNull(value: Option<Json>): Json { if value.Some? then value.value else Null }

  /** What two works are compared by: every part, with null for absent ones, and the replay object as it is stored. */
  function Comparable(w: P.Snapshot): seq<Field> {
    [Field(WorkId, String(w.workId)), Field(CorrelationId, String(w.correlationId)),
     Field(CorrelationSource, String(W.SourceText(w.correlationSource))), Field(Operation, String(w.operation)),
     Field(AttributionKey, Object([
       Field(Initiator, OrNull(W.OptionalActor(w.attribution.initiator))),
       Field(OnBehalfOf, OrNull(W.OptionalActor(w.attribution.onBehalfOf))),
       Field(TenantKey, OrNull(W.OptionalText(w.attribution.tenant)))])),
     Field(CausationKey, OrNull(W.OptionalReference(w.causation))),
     Field(OriginKey, if w.origin.Some? then String(W.OriginText(w.origin.value)) else Null),
     Field(Depth, if w.depth.Some? then Number(w.depth.value) else Null),
     Field(ReplayKey, if w.replay.Some? then ReplayAsStored(w.replay.value) else Null)]
  }

  function ReplayMember(r: P.Replay, m: P.Member): Field
    requires P.Prints(m)
  {
    match m
    case RunIdHere => Field(RunId, String(r.runId))
    case SourceHere => Field(Source, W.ReferenceOut(r.source))
    case Extra(name, value) => Field(Other(name), value.value)
  }

  function ReplayMembers(r: P.Replay): seq<Field> {
    var printed := P.Printed(r.members);
    seq(|printed|, i requires 0 <= i < |printed| => assert printed[i] in printed; ReplayMember(r, printed[i]))
  }

  function ReplayAsStored(r: P.Replay): Json { Object(ReplayMembers(r)) }

  predicate SameWork(event: P.Snapshot, work: P.Snapshot) { Comparable(event) == Comparable(work) }

  lemma ActorOutInjective(a: Option<P.Actor>, b: Option<P.Actor>)
    requires W.OptionalActor(a) == W.OptionalActor(b)
    ensures a == b
  {
    W.TextsComeBack();
    if a.Some? && b.Some? {
      var x, y := W.ActorOut(a.value).fields, W.ActorOut(b.value).fields;
      assert x == y && |x| == |y| && x[0] == y[0];
      if a.value.Named? && b.value.Named? { assert x[1] == y[1]; }
    }
  }

  lemma ReferenceOutInjective(a: P.Reference, b: P.Reference)
    requires W.ReferenceOut(a) == W.ReferenceOut(b)
    ensures a == b
  {
    W.TextsComeBack();
    var x, y := W.ReferenceOut(a).fields, W.ReferenceOut(b).fields;
    assert x[0] == y[0] && x[1] == y[1];
  }

  lemma ReplayInjective(a: P.Replay, b: P.Replay)
    requires P.IsLayout(a.members) && P.IsLayout(b.members) && ReplayAsStored(a) == ReplayAsStored(b)
    ensures P.Printed(a.members) == P.Printed(b.members) && a.runId == b.runId && a.source == b.source
  {
    var p, q := P.Printed(a.members), P.Printed(b.members);
    var x, y := ReplayMembers(a), ReplayMembers(b);
    assert x == y && |p| == |q|;
    forall i | 0 <= i < |p| ensures p[i] == q[i] {
      assert p[i] in p && q[i] in q && x[i] == y[i];
    }
    var i :| 0 <= i < |p| && p[i] == P.RunIdHere;
    var j :| 0 <= j < |p| && p[j] == P.SourceHere;
    assert x[i] == y[i] && x[j] == y[j];
    ReferenceOutInjective(a.source, b.source);
  }

  lemma ReplaySame(a: P.Replay, b: P.Replay)
    requires P.Printed(a.members) == P.Printed(b.members) && a.runId == b.runId && a.source == b.source
    ensures ReplayAsStored(a) == ReplayAsStored(b)
  {
    var p := P.Printed(a.members);
    forall i | 0 <= i < |p| ensures ReplayMembers(a)[i] == ReplayMembers(b)[i] {
      assert p[i] in p && ReplayMember(a, p[i]) == ReplayMember(b, p[i]);
    }
    assert ReplayMembers(a) == ReplayMembers(b);
  }

  lemma AttributionInjective(a: P.Snapshot, b: P.Snapshot)
    requires Comparable(a)[4] == Comparable(b)[4]
    ensures a.attribution == b.attribution
  {
    var x, y := Comparable(a)[4].value.fields, Comparable(b)[4].value.fields;
    assert x[0] == y[0] && x[1] == y[1] && x[2] == y[2];
    ActorOutInjective(a.attribution.initiator, b.attribution.initiator);
    ActorOutInjective(a.attribution.onBehalfOf, b.attribution.onBehalfOf);
  }

  lemma SameWorkPrints(a: P.Snapshot, b: P.Snapshot)
    requires P.Valid(a) && P.Valid(b) && SameWork(a, b)
    ensures a.AsPrinted() == b.AsPrinted()
  {
    var x, y := Comparable(a), Comparable(b);
    assert x[0] == y[0] && x[1] == y[1] && x[2] == y[2] && x[3] == y[3] && x[4] == y[4];
    assert x[5] == y[5] && x[6] == y[6] && x[7] == y[7] && x[8] == y[8];
    W.TextsComeBack();
    AttributionInjective(a, b);
    if a.causation.Some? && b.causation.Some? { ReferenceOutInjective(a.causation.value, b.causation.value); }
    if a.replay.Some? && b.replay.Some? { ReplayInjective(a.replay.value, b.replay.value); }
  }

  /** The comparison misses nothing that JSON prints, names and order of the replay object's members included. */
  lemma SameWorkIsEqual(a: P.Snapshot, b: P.Snapshot)
    requires P.Valid(a) && P.Valid(b)
    ensures SameWork(a, b) <==> a.AsPrinted() == b.AsPrinted()
  {
    if SameWork(a, b) {
      SameWorkPrints(a, b);
    }
    if a.AsPrinted() == b.AsPrinted() {
      if a.replay.Some? { ReplaySame(a.replay.value, b.replay.value); }
    }
  }

  // ----- Which envelopes can be created -----

  /** The arguments of `Envelope.create` as their types have them; of the payload that JSON takes it as it is. */
  datatype Draft = Draft(id: ID, kind: string, occurredAtMs: int, work: P.Snapshot, payload: seq<Field>,
                         subject: Option<Subject>, tenant: Option<ID>)
  {
    function Specs(): seq<Spec> { CreateSpecs(id, kind, occurredAtMs, work, payload, subject, tenant) }

    function Tree(): Json { Object(Build(Specs())) }

    predicate Typed(d: Doubles) {
      && IsId(id) && P.Valid(work) && d.integral(occurredAtMs) && IsValue(Object(payload), d)
      && (subject.Some? ==> IsId(subject.value.id)) && (tenant.Some? ==> IsId(tenant.value))
    }
  }

  function Create(draft: Draft, wire: Wire): Option<Envelope> { Decode(wire.write(draft.Tree()), wire) }

  lemma SpecsDistinct(draft: Draft)
    ensures DistinctKeys(draft.Specs())
  {
  }

  lemma TreeIsValue(draft: Draft, d: Doubles)
    requires draft.Typed(d) && HoldSafe(d)
    ensures IsValue(draft.Tree(), d)
  {
    SpecsDistinct(draft);
    WorkIsValue(draft.work, d);
    if draft.subject.Some? { SubjectIsValue(draft.subject.value, d); }
    BuiltIsValue(draft.Specs(), d);
  }

  lemma TreeGets(draft: Draft)
    ensures var f := Build(draft.Specs());
      && Get(f, V) == Some(Number(1)) && Get(f, Id) == Some(String(draft.id)) && Get(f, Type) == Some(String(draft.kind))
      && Get(f, OccurredAtMs) == Some(Number(draft.occurredAtMs)) && Get(f, WorkKey) == Some(W.WorkOut(draft.work))
      && Get(f, Payload) == Some(Object(draft.payload))
      && Get(f, SubjectKey) == (if draft.subject.Some? then Some(SubjectOut(draft.subject.value)) else None)
      && Get(f, TenantKey) == (if draft.tenant.Some? then Some(String(draft.tenant.value)) else None)
  {
    var specs := draft.Specs();
    SpecsDistinct(draft);
    forall i: nat | i < 8 ensures Get(Build(specs), specs[i].key) == specs[i].value {
      GetBuilt(specs, i);
    }
    assert specs[0].key == V && specs[1].key == Id && specs[2].key == Type && specs[3].key == OccurredAtMs;
    assert specs[4].key == WorkKey && specs[5].key == Payload && specs[6].key == SubjectKey && specs[7].key == TenantKey;
  }

  lemma TreeLength(draft: Draft)
    ensures |Build(draft.Specs())| == 6 + Optionals(Build(draft.Specs()))
  {
    TreeGets(draft);
    BuildSplit(draft.Specs()[..6], draft.Specs()[6..]);
    assert draft.Specs() == draft.Specs()[..6] + draft.Specs()[6..];
    BuildFull(draft.Specs()[..6]);
    BuildTwo(draft.Specs()[6], draft.Specs()[7]);
    assert draft.Specs()[6..] == [draft.Specs()[6], draft.Specs()[7]];
  }

  lemma BuildTwo(a: Spec, b: Spec)
    ensures |Build([a, b])| == (if a.value.Some? then 1 else 0) + (if b.value.Some? then 1 else 0)
  {
    assert [a, b][1..] == [b] && [b][1..] == [];
    assert |Build([b])| == if b.value.Some? then 1 else 0;
  }

  lemma {:induction false} BuildFull(specs: seq<Spec>)
    requires forall i | 0 <= i < |specs| :: specs[i].value.Some?
    ensures |Build(specs)| == |specs|
    decreases |specs|
  {
    if specs != [] { BuildFull(specs[1..]); }
  }

  lemma {:induction false} BuildSplit(a: seq<Spec>, b: seq<Spec>)
    ensures Build(a + b) == Build(a) + Build(b)
    decreases |a|
  {
    if a == [] {
      assert a + b == b;
    } else {
      BuildSplit(a[1..], b);
      assert (a + b)[1..] == a[1..] + b;
    }
  }

  lemma TreeSubject(draft: Draft)
    requires draft.subject.Some? ==> IsId(draft.subject.value.id)
    ensures
      SubjectIn(Get(Build(draft.Specs()), SubjectKey))
      == if draft.subject.Some? ==> IsCode(draft.subject.value.kind, 64) then Some(draft.subject) else None
  {
    TreeGets(draft);
    if draft.subject.Some? {
      if IsCode(draft.subject.value.kind, 64) {
        SubjectComesBack(draft.subject);
      } else {
        SubjectRefused(draft.subject.value);
      }
    }
  }

  lemma TreeIds(draft: Draft)
    requires IsId(draft.id) && (draft.tenant.Some? ==> IsId(draft.tenant.value))
    ensures
      var f := Build(draft.Specs());
      W.IdIn(Get(f, Id)) == Some(draft.id) && TenantIn(Get(f, TenantKey)) == Some(draft.tenant)
  {
    TreeGets(draft);
  }

  lemma TreeWork(draft: Draft)
    requires P.Valid(draft.work)
    ensures W.WorkIn(Get(Build(draft.Specs()), WorkKey)) == Some(draft.work.Plain())
  {
    TreeGets(draft);
    W.WorkComesBack(draft.work);
  }

  lemma PartsFound(f: seq<Field>, id: ID, work: P.Snapshot, subject: W.Optional<Subject>, tenant: Option<ID>)
    requires W.IdIn(Get(f, Id)) == Some(id) && W.WorkIn(Get(f, WorkKey)) == Some(work)
    requires SubjectIn(Get(f, SubjectKey)) == subject && TenantIn(Get(f, TenantKey)) == Some(tenant)
    ensures PartsIn(f) == if subject.Some? then Some(Parts(id, work, subject.value, tenant)) else None
  {
  }

  /** What the decoder finds in the tree of a draft. */
  lemma TreeParts(draft: Draft, d: Doubles)
    requires draft.Typed(d)
    ensures
      var f := Build(draft.Specs());
      PartsIn(f) == if draft.subject.Some? ==> IsCode(draft.subject.value.kind, 64)
                    then Some(Parts(draft.id, draft.work.Plain(), draft.subject, draft.tenant)) else None
  {
    TreeSubject(draft);
    TreeIds(draft);
    TreeWork(draft);
    PartsFound(Build(draft.Specs()), draft.id, draft.work.Plain(), SubjectIn(Get(Build(draft.Specs()), SubjectKey)), draft.tenant);
  }

  lemma SubjectRefused(s: Subject)
    requires !IsCode(s.kind, 64)
    ensures SubjectIn(Some(SubjectOut(s))).None?
  {
  }

  lemma HeadFound(f: seq<Field>, kind: string, at: int)
    requires |f| == 6 + Optionals(f) && Get(f, V) == Some(Number(1)) && Get(f, Id).Some? && Get(f, WorkKey).Some?
    requires Get(f, Type) == Some(String(kind)) && Get(f, OccurredAtMs) == Some(Number(at))
    requires W.FieldsIn(Get(f, Payload)).Some?
    ensures HeadOk(f) <==> IsType(kind) && 0 <= at <= MAX_TIME
  {
  }

  lemma TreeHead(draft: Draft)
    ensures HeadOk(Build(draft.Specs())) <==> IsType(draft.kind) && 0 <= draft.occurredAtMs <= MAX_TIME
  {
    TreeGets(draft);
    TreeLength(draft);
    HeadFound(Build(draft.Specs()), draft.kind, draft.occurredAtMs);
  }

  /** A plain work and the draft's own parts are in the tree as the normal form has them. */
  lemma WorkOutPlain(w: P.Snapshot)
    ensures W.WorkOut(w.Plain()) == W.WorkOut(w)
  {
    if w.replay.Some? { assert W.ReplayOut(w.Plain().replay.value) == W.ReplayOut(w.replay.value); }
    assert W.WorkSpecs(w.Plain()) == W.WorkSpecs(w);
  }

  lemma TreeIsNormal(draft: Draft)
    ensures
      var p := Parts(draft.id, draft.work.Plain(), draft.subject, draft.tenant);
      Normal(Build(draft.Specs()), p) == Build(draft.Specs())
  {
    var f := Build(draft.Specs());
    TreeGets(draft);
    WorkOutPlain(draft.work);
    PutSame(f, Id, String(draft.id));
    PutSame(f, WorkKey, W.WorkOut(draft.work));
    if draft.subject.Some? { PutSame(f, SubjectKey, SubjectOut(draft.subject.value)); }
    if draft.tenant.Some? { PutSame(f, TenantKey, String(draft.tenant.value)); }
  }

  lemma TreeDecodes(draft: Draft, wire: Wire)
    requires RoundTrips(wire) && draft.Typed(wire.doubles)
    ensures
      Create(draft, wire)
      == if |wire.write(draft.Tree())| > MAX_BYTES then None else DecodeFields(Build(draft.Specs()), wire)
  {
    TreeIsValue(draft, wire.doubles);
  }

  lemma DecodesIff(fields: seq<Field>, wire: Wire, p: Parts, readable: bool)
    requires PartsIn(fields) == (if readable then Some(p) else None) && (readable ==> Normal(fields, p) == fields)
    ensures DecodeFields(fields, wire).Some? <==> readable && HeadOk(fields) && |wire.write(Object(fields))| <= MAX_BYTES
    ensures DecodeFields(fields, wire).Some? ==> DecodeFields(fields, wire).value.work == p.work
  {
  }

  predicate Creatable(draft: Draft) {
    && IsType(draft.kind) && 0 <= draft.occurredAtMs <= 253402300799999
    && (draft.subject.Some? ==> IsCode(draft.subject.value.kind, 64))
  }

  /** An envelope carries the work it is created for, with the two replay members the codec writes. */
  lemma CreatedWork(draft: Draft, wire: Wire)
    requires RoundTrips(wire) && draft.Typed(wire.doubles) && Create(draft, wire).Some?
    ensures Create(draft, wire).value.work == draft.work.Plain()
  {
    TreeDecodes(draft, wire);
    TreeReads(draft, wire);
  }

  /** An envelope is created exactly if type, time and subject kind are well-formed and its text has room. */
  lemma CreatedIff(draft: Draft, wire: Wire)
    requires RoundTrips(wire) && draft.Typed(wire.doubles)
    ensures Create(draft, wire).Some? <==> Creatable(draft) && |wire.write(draft.Tree())| <= 65536
  {
    TreeDecodes(draft, wire);
    if Creatable(draft) && |wire.write(draft.Tree())| <= MAX_BYTES { CreatableDecodes(draft, wire); }
    if Create(draft, wire).Some? { DecodedIsCreatable(draft, wire); }
  }

  lemma TreeReads(draft: Draft, wire: Wire)
    requires draft.Typed(wire.doubles)
    ensures
      var r := DecodeFields(Build(draft.Specs()), wire);
      && (r.Some? <==> && (draft.subject.Some? ==> IsCode(draft.subject.value.kind, 64)) && HeadOk(Build(draft.Specs()))
                       && |wire.write(Object(Build(draft.Specs())))| <= MAX_BYTES)
      && (r.Some? ==> r.value.work == draft.work.Plain())
  {
    var p := Parts(draft.id, draft.work.Plain(), draft.subject, draft.tenant);
    TreeParts(draft, wire.doubles);
    TreeIsNormal(draft);
    DecodesIff(Build(draft.Specs()), wire, p, draft.subject.Some? ==> IsCode(draft.subject.value.kind, 64));
  }

  lemma CreatableDecodes(draft: Draft, wire: Wire)
    requires draft.Typed(wire.doubles) && Creatable(draft) && |wire.write(Object(Build(draft.Specs())))| <= MAX_BYTES
    ensures DecodeFields(Build(draft.Specs()), wire).Some?
  {
    TreeReads(draft, wire);
    TreeHead(draft);
  }

  lemma DecodedIsCreatable(draft: Draft, wire: Wire)
    requires draft.Typed(wire.doubles) && DecodeFields(Build(draft.Specs()), wire).Some?
    ensures Creatable(draft)
  {
    TreeReads(draft, wire);
    TreeHead(draft);
  }

  // ----- The provenance check -----

  lemma {:induction false} AllPrinted(members: seq<P.Member>)
    requires forall m | m in members :: P.Prints(m)
    ensures P.Printed(members) == members
    decreases |members|
  {
    if members != [] { AllPrinted(members[1..]); }
  }

  lemma PlainPrints()
    ensures P.Printed(P.PLAIN) == P.PLAIN && P.IsLayout(P.PLAIN)
  {
    AllPrinted(P.PLAIN);
  }

  lemma PlainKept(w: P.Snapshot)
    ensures w.AsPrinted().Plain() == w.Plain() && w.Plain().Plain() == w.Plain()
    ensures w.Plain().AsPrinted() == w.Plain()
  {
    PlainPrints();
  }

  /** A writer accepts an envelope created for its own work exactly if the work is no replay, or its replay object prints
      run ID and source, in this order, and nothing else. */
  lemma CreatedEventAcceptedIff(draft: Draft, wire: Wire)
    requires RoundTrips(wire) && draft.Typed(wire.doubles) && Create(draft, wire).Some?
    ensures SameWork(Create(draft, wire).value.work, draft.work)
       <==> (draft.work.replay.Some? ==> P.Printed(draft.work.replay.value.members) == P.PLAIN)
  {
    CreatedWork(draft, wire);
    W.PlainValid(draft.work);
    SameWorkIsEqual(draft.work.Plain(), draft.work);
    PlainPrints();
  }

  /** An envelope is accepted for no other work than the one it carries. */
  lemma ForeignWorkRefused(draft: Draft, wire: Wire, other: P.Snapshot)
    requires RoundTrips(wire) && draft.Typed(wire.doubles) && Create(draft, wire).Some?
    requires P.Valid(other) && other.Plain() != draft.work.Plain()
    ensures !SameWork(Create(draft, wire).value.work, other)
  {
    CreatedWork(draft, wire);
    W.PlainValid(draft.work);
    SameWorkIsEqual(draft.work.Plain(), other);
    PlainKept(draft.work);
    PlainKept(other);
  }

  const SAMPLE: ID := "00000000-0000-7000-8000-000000000001"

  /** A replay with these members in its stored object, in the order given. */
  function ReplayWork(members: seq<P.Member>): P.Snapshot {
    P.Snapshot(SAMPLE, SAMPLE, P.Local, "job.replay", P.Attribution(None, None, None), None, Some(P.Replayed), Some(0),
               Some(P.Replay(SAMPLE, P.Reference(P.Event, SAMPLE), members)))
  }

  lemma ReplayWorkValid(members: seq<P.Member>)
    requires P.IsLayout(members)
    ensures P.Valid(ReplayWork(members))
  {
    SampleIsId();
    assert P.IsOperation("job.replay");
  }

  /** This replay passes validation, its envelope is created as the plain replay's is, and then never accepted. */
  ghost predicate CreatedButRefused(draft: Draft, wire: Wire, members: seq<P.Member>) {
    var mine, plain := draft.(work := ReplayWork(members)), draft.(work := ReplayWork(P.PLAIN));
    && P.Valid(mine.work)
    && Create(mine, wire) == Create(plain, wire)
    && (Create(mine, wire).Some? ==> !SameWork(Create(mine, wire).value.work, mine.work))
  }

  lemma OtherReplayRefused(draft: Draft, wire: Wire, members: seq<P.Member>)
    requires RoundTrips(wire) && draft.Typed(wire.doubles) && P.IsLayout(members) && P.Printed(members) != P.PLAIN
    ensures CreatedButRefused(draft, wire, members)
  {
    var mine, plain := draft.(work := ReplayWork(members)), draft.(work := ReplayWork(P.PLAIN));
    ReplayWorkValid(members);
    WorkOutPlain(mine.work);
    assert mine.work.Plain() == plain.work;
    assert mine.Specs() == plain.Specs();
    if Create(mine, wire).Some? { CreatedEventAcceptedIff(mine, wire); }
  }

  /** The replay object that names its source first. */
  lemma SourceFirstRefused(draft: Draft, wire: Wire)
    requires RoundTrips(wire) && draft.Typed(wire.doubles)
    ensures CreatedButRefused(draft, wire, [P.SourceHere, P.RunIdHere])
  {
    var members := [P.SourceHere, P.RunIdHere];
    assert members[0] == P.SourceHere && members[1] == P.RunIdHere;
    AllPrinted(members);
    OtherReplayRefused(draft, wire, members);
  }

  lemma ExtraLayout(name: string, value: Json)
    requires name != "runId" && name != "source"
    ensures var members := [P.RunIdHere, P.SourceHere, P.Extra(name, Some(value))];
      P.IsLayout(members) && P.Printed(members) != P.PLAIN
  {
    var members := [P.RunIdHere, P.SourceHere, P.Extra(name, Some(value))];
    assert members[0] == P.RunIdHere && members[1] == P.SourceHere;
    AllPrinted(members);
  }

  /** The replay object with any member more than the two. */
  lemma ExtraMemberRefused(draft: Draft, wire: Wire, name: string, value: Json)
    requires RoundTrips(wire) && draft.Typed(wire.doubles) && name != "runId" && name != "source"
    ensures CreatedButRefused(draft, wire, [P.RunIdHere, P.SourceHere, P.Extra(name, Some(value))])
  {
    var members := [P.RunIdHere, P.SourceHere, P.Extra(name, Some(value))];
    ExtraLayout(name, value);
    OtherReplayRefused(draft, wire, members);
  }

  lemma SampleIsId()
    ensures IsId(SAMPLE)
  {
    assert IsCanonicalShape(SAMPLE);
    assert ToLowerCase(SAMPLE) == SAMPLE;
  }
}
