/**
 * Work contexts as JSON: `workOut` and `workIn` of event envelopes (src/shared/events/index.ts), `encodeWork` and
 * `decodeWork` of stored audit entries (src/modules/audit/infra/postgres/codec.ts). Both write the same tree.
 */
module WorkCodec {
  import opened Prelude
  import opened Ids
  import opened JsonTree
  import P = Provenance

  // ----- Writing -----

  function KindText(kind: P.NamedKind): string {
    match kind
    case User => "user"
    case Service => "service"
    case System => "system"
  }

  function ReferenceKindText(kind: P.ReferenceKind): string {
    match kind
    case Scope => "scope"
    case Work => "work"
    case Event => "event"
  }

  function OriginText(origin: P.Origin): string {
    match origin
    case Request => "request"
    case Message => "message"
    case Schedule => "schedule"
    case Replayed => "replay"
    case Backfill => "backfill"
    case Startup => "startup"
  }

  function SourceText(source: P.CorrelationSource): string { if source.Local? then "local" else "external" }

  function ActorOut(a: P.Actor): Json {
    match a
    case Anonymous => Object([Field(Kind, String("anonymous"))])
    case Named(kind, identity) => Object([Field(Kind, String(KindText(kind))), Field(Identity, String(identity))])
  }

  function ReferenceOut(r: P.Reference): Json {
    Object([Field(Kind, String(ReferenceKindText(r.kind))), Field(Id, String(r.id))])
  }

  function OptionalActor(a: Option<P.Actor>): Option<Json> { if a.Some? then Some(ActorOut(a.value)) else None }

  function OptionalReference(r: Option<P.Reference>): Option<Json> { if r.Some? then Some(ReferenceOut(r.value)) else None }

  function OptionalText(s: Option<string>): Option<Json> { if s.Some? then Some(String(s.value)) else None }

  function AttributionSpecs(a: P.Attribution): seq<Spec> {
    [Spec(Initiator, OptionalActor(a.initiator)), Spec(OnBehalfOf, OptionalActor(a.onBehalfOf)),
     Spec(TenantKey, OptionalText(a.tenant))]
  }

  function ReplayOut(r: P.Replay): Json {
    Object([Field(RunId, String(r.runId)), Field(Source, ReferenceOut(r.source))])
  }

  function WorkSpecs(w: P.Snapshot): seq<Spec> {
    [Spec(WorkId, Some(String(w.workId))),
     Spec(CorrelationId, Some(String(w.correlationId))),
     Spec(CorrelationSource, Some(String(SourceText(w.correlationSource)))),
     Spec(Operation, Some(String(w.operation))),
     Spec(AttributionKey, Some(Object(Build(AttributionSpecs(w.attribution))))),
     Spec(CausationKey, OptionalReference(w.causation)),
     Spec(OriginKey, if w.origin.Some? then Some(String(OriginText(w.origin.value))) else None),
     Spec(Depth, if w.depth.Some? then Some(Number(w.depth.value)) else None),
     Spec(ReplayKey, if w.replay.Some? then Some(ReplayOut(w.replay.value)) else None)]
  }

  /** `workOut` and `encodeWork` */
  function WorkOut(w: P.Snapshot): Json { Object(Build(WorkSpecs(w))) }

  // ----- Reading texts -----

  function KindFrom(s: string): Option<P.NamedKind> {
    if s == "user" then Some(P.User) else if s == "service" then Some(P.Service) else if s == "system" then Some(P.System) else None
  }

  function ReferenceKindFrom(s: string): Option<P.ReferenceKind> {
    if s == "scope" then Some(P.Scope) else if s == "work" then Some(P.Work) else if s == "event" then Some(P.Event) else None
  }

  function OriginFrom(s: string): Option<P.Origin> {
    if s == "request" then Some(P.Request) else if s == "message" then Some(P.Message)
    else if s == "schedule" then Some(P.Schedule) else if s == "replay" then Some(P.Replayed)
    else if s == "backfill" then Some(P.Backfill) else if s == "startup" then Some(P.Startup) else None
  }

  function SourceFrom(s: string): Option<P.CorrelationSource> {
    if s == "local" then Some(P.Local) else if s == "external" then Some(P.External) else None
  }

  lemma TextsComeBack()
    ensures forall k :: KindFrom(KindText(k)) == Some(k) && KindText(k) != "anonymous"
    ensures forall k :: ReferenceKindFrom(ReferenceKindText(k)) == Some(k)
    ensures forall o :: OriginFrom(OriginText(o)) == Some(o)
    ensures forall s :: SourceFrom(SourceText(s)) == Some(s)
  {
  }

  function IdIn(value: Option<Json>): Option<ID> {
    if value.Some? && value.value.String? && Parse(value.value.text).Ok? then Some(Parse(value.value.text).value) else None
  }

  function TextIn(value: Option<Json>): Option<string> {
    if value.Some? && value.value.String? then Some(value.value.text) else None
  }

  function FieldsIn(value: Option<Json>): Option<seq<Field>> {
    if value.Some? && value.value.Object? then Some(value.value.fields) else None
  }

  /** A reading that may be absent; the outer None is a failure. */
  type Optional<T> = Option<Option<T>>

  // ----- `workIn`: strict about member names -----

  function MakeActor(kind: string, identity: string): Option<P.Actor> {
    if kind == "anonymous" then (if identity == "" then Some(P.Anonymous) else None)
    else if KindFrom(kind).Some? && P.IsIdentity(identity) then Some(P.Named(KindFrom(kind).value, identity))
    else None
  }

  function ActorIn(value: Option<Json>): Optional<P.Actor> {
    if Present(value).None? then Some(None)
    else
      var fields := FieldsIn(value);
      if fields.None? || !OnlyKeys(fields.value, {Kind, Identity}) then None
      else
        var kind, given := TextIn(Get(fields.value, Kind)), Present(Get(fields.value, Identity));
        var identity := if given.None? then Some("") else TextIn(given);
        if kind.None? || identity.None? then None
        else
          var actor := MakeActor(kind.value, identity.value);
          if actor.None? then None else Some(actor)
  }

  function ReferenceIn(value: Option<Json>): Optional<P.Reference> {
    if Present(value).None? then Some(None)
    else
      var fields := FieldsIn(value);
      if fields.None? || !OnlyKeys(fields.value, {Kind, Id}) then None
      else
        var kind, id := TextIn(Get(fields.value, Kind)), IdIn(Get(fields.value, Id));
        if kind.None? || id.None? || ReferenceKindFrom(kind.value).None? then None
        else Some(Some(P.Reference(ReferenceKindFrom(kind.value).value, id.value)))
  }

  function AttributionIn(value: Option<Json>): Option<P.Attribution> {
    var fields := FieldsIn(value);
    if fields.None? || !OnlyKeys(fields.value, {Initiator, OnBehalfOf, TenantKey}) then None
    else
      var initiator, onBehalfOf := ActorIn(Get(fields.value, Initiator)), ActorIn(Get(fields.value, OnBehalfOf));
      var given := Present(Get(fields.value, TenantKey));
      if initiator.None? || onBehalfOf.None? || (given.Some? && TextIn(given).None?) then None
      else
        var a := P.Attribution(initiator.value, onBehalfOf.value, TextIn(given));
        if P.ValidAttribution(a) then Some(a) else None
  }

  function OriginIn(value: Option<Json>): Optional<P.Origin> {
    if Present(value).None? then Some(None)
    else if TextIn(value).None? || OriginFrom(TextIn(value).value).None? then None
    else Some(OriginFrom(TextIn(value).value))
  }

  function DepthIn(value: Option<Json>): Optional<int> {
    if Present(value).None? then Some(None)
    else if value.value.Number? then Some(Some(value.value.n)) else None
  }

  function ReplayIn(value: Option<Json>): Optional<P.Replay> {
    if Present(value).None? then Some(None)
    else
      var fields := FieldsIn(value);
      if fields.None? || !OnlyKeys(fields.value, {RunId, Source}) then None
      else
        var runId, source := IdIn(Get(fields.value, RunId)), ReferenceIn(Get(fields.value, Source));
        if runId.None? || source.None? || source.value.None? then None
        else Some(Some(P.Replay(runId.value, source.value.value, P.PLAIN)))
  }

  /** Everything of a work context but its attribution and replay, which the two readers read differently. */
  function Assemble(fields: seq<Field>, attribution: Option<P.Attribution>, causation: Optional<P.Reference>,
                    origin: Optional<P.Origin>, depth: Optional<int>, replay: Optional<P.Replay>): Option<P.Snapshot>
  {
    var workId, correlationId := IdIn(Get(fields, WorkId)), IdIn(Get(fields, CorrelationId));
    var source, operation := TextIn(Get(fields, CorrelationSource)), TextIn(Get(fields, Operation));
    if
      || workId.None? || correlationId.None? || source.None? || SourceFrom(source.value).None? || operation.None?
      || attribution.None? || causation.None? || origin.None? || depth.None? || replay.None?
    then None
    else
      P.Restore(P.Snapshot(workId.value, correlationId.value, SourceFrom(source.value).value, operation.value,
                           attribution.value, causation.value, origin.value, depth.value, replay.value))
  }

  const WORK_KEYS := {WorkId, CorrelationId, CorrelationSource, Operation, AttributionKey, CausationKey, OriginKey, Depth, ReplayKey}

  function WorkIn(value: Option<Json>): Option<P.Snapshot> {
    var fields := FieldsIn(value);
    if fields.None? || !OnlyKeys(fields.value, WORK_KEYS) then None
    else
      var f := fields.value;
      Assemble(f, AttributionIn(Get(f, AttributionKey)), ReferenceIn(Get(f, CausationKey)), OriginIn(Get(f, OriginKey)),
               DepthIn(Get(f, Depth)), ReplayIn(Get(f, ReplayKey)))
  }

  // ----- `decodeWork`: lenient about member names, strict about null origins and depths -----

  function StoredActor(value: Option<Json>): Optional<P.Actor> {
    if Present(value).None? then Some(None)
    else
      var fields := FieldsIn(value);
      if fields.None? then None
      else
        var kind, identity := TextIn(Get(fields.value, Kind)), TextIn(Get(fields.value, Identity));
        if kind == Some("anonymous") then Some(Some(P.Anonymous))
        else if kind.None? || identity.None? then None
        else
          var actor := MakeActor(kind.value, identity.value);
          if actor.None? then None else Some(actor)
  }

  function StoredReference(value: Option<Json>): Optional<P.Reference> {
    if Present(value).None? then Some(None)
    else
      var fields := FieldsIn(value);
      if fields.None? then None
      else
        var kind, id := TextIn(Get(fields.value, Kind)), IdIn(Get(fields.value, Id));
        if kind.None? || id.None? || ReferenceKindFrom(kind.value).None? then None
        else Some(Some(P.Reference(ReferenceKindFrom(kind.value).value, id.value)))
  }

  /** A tenant that is not a text is read as no tenant. */
  function StoredAttribution(value: Option<Json>): Option<P.Attribution> {
    var fields := FieldsIn(value);
    if fields.None? then None
    else
      var initiator, onBehalfOf := StoredActor(Get(fields.value, Initiator)), StoredActor(Get(fields.value, OnBehalfOf));
      if initiator.None? || onBehalfOf.None? then None
      else
        var a := P.Attribution(initiator.value, onBehalfOf.value, TextIn(Get(fields.value, TenantKey)));
        if P.ValidAttribution(a) then Some(a) else None
  }

  function StoredOrigin(value: Option<Json>): Optional<P.Origin> {
    if value.None? then Some(None)
    else if TextIn(value).None? || OriginFrom(TextIn(value).value).None? then None
    else Some(OriginFrom(TextIn(value).value))
  }

  function StoredDepth(value: Option<Json>): Optional<int> {
    if value.None? then Some(None) else if value.value.Number? then Some(Some(value.value.n)) else None
  }

  function StoredReplay(value: Option<Json>): Optional<P.Replay> {
    if Present(value).None? then Some(None)
    else
      var fields := FieldsIn(value);
      if fields.None? then None
      else
        var runId, source := IdIn(Get(fields.value, RunId)), StoredReference(Get(fields.value, Source));
        if runId.None? || source.None? || source.value.None? then None
        else Some(Some(P.Replay(runId.value, source.value.value, P.PLAIN)))
  }

  function DecodeWork(value: Option<Json>): Option<P.Snapshot> {
    var fields := FieldsIn(value);
    if fields.None? then None
    else
      var f := fields.value;
      Assemble(f, StoredAttribution(Get(f, AttributionKey)), StoredReference(Get(f, CausationKey)),
               StoredOrigin(Get(f, OriginKey)), StoredDepth(Get(f, Depth)), StoredReplay(Get(f, ReplayKey)))
  }

  // ----- Round trips -----

  lemma ActorComesBack(a: Option<P.Actor>)
    requires a.Some? ==> P.ValidActor(a.value)
    ensures ActorIn(OptionalActor(a)) == Some(a) && StoredActor(OptionalActor(a)) == Some(a)
  {
    TextsComeBack();
    if a.Some? && a.value.Named? {
      var fields := ActorOut(a.value).fields;
      assert fields[1..][0] == fields[1];
      assert Get(fields, Identity) == Some(String(a.value.identity));
    }
  }

  lemma ReferenceComesBack(r: Option<P.Reference>)
    requires r.Some? ==> IsId(r.value.id)
    ensures ReferenceIn(OptionalReference(r)) == Some(r) && StoredReference(OptionalReference(r)) == Some(r)
  {
    TextsComeBack();
    if r.Some? {
      var fields := ReferenceOut(r.value).fields;
      assert fields[1..][0] == fields[1];
      assert Get(fields, Id) == Some(String(r.value.id));
    }
  }

  lemma AttributionFields(a: P.Attribution)
    ensures var f, specs := Build(AttributionSpecs(a)), AttributionSpecs(a);
      && OnlyKeys(f, {Initiator, OnBehalfOf, TenantKey})
      && Get(f, Initiator) == OptionalActor(a.initiator) && Get(f, OnBehalfOf) == OptionalActor(a.onBehalfOf)
      && Get(f, TenantKey) == OptionalText(a.tenant)
  {
    var specs := AttributionSpecs(a);
    GetBuilt(specs, 0);
    GetBuilt(specs, 1);
    GetBuilt(specs, 2);
    BuiltKeys(specs, {Initiator, OnBehalfOf, TenantKey});
  }

  lemma AttributionReads(f: seq<Field>, a: P.Attribution)
    requires P.ValidAttribution(a)
    requires OnlyKeys(f, {Initiator, OnBehalfOf, TenantKey})
    requires ActorIn(Get(f, Initiator)) == StoredActor(Get(f, Initiator)) == Some(a.initiator)
    requires ActorIn(Get(f, OnBehalfOf)) == StoredActor(Get(f, OnBehalfOf)) == Some(a.onBehalfOf)
    requires Get(f, TenantKey) == OptionalText(a.tenant)
    ensures AttributionIn(Some(Object(f))) == Some(a) && StoredAttribution(Some(Object(f))) == Some(a)
  {
    assert P.Attribution(a.initiator, a.onBehalfOf, TextIn(Get(f, TenantKey))) == a;
  }

  lemma AttributionComesBack(a: P.Attribution)
    requires P.ValidAttribution(a)
    ensures var out := Some(Object(Build(AttributionSpecs(a)))); AttributionIn(out) == Some(a) && StoredAttribution(out) == Some(a)
  {
    AttributionFields(a);
    ActorComesBack(a.initiator);
    ActorComesBack(a.onBehalfOf);
    AttributionReads(Build(AttributionSpecs(a)), a);
  }

  lemma ReplayComesBack(r: P.Replay)
    requires IsId(r.runId) && IsId(r.source.id)
    ensures
      var out, back := Some(ReplayOut(r)), Some(r.(members := P.PLAIN));
      ReplayIn(out) == Some(back) && StoredReplay(out) == Some(back)
  {
    ReferenceComesBack(Some(r.source));
    var fields := ReplayOut(r).fields;
    assert fields[1..][0] == fields[1];
    assert Get(fields, Source) == OptionalReference(Some(r.source));
  }

  lemma WorkSpecsDistinct(w: P.Snapshot)
    ensures DistinctKeys(WorkSpecs(w)) && forall i | 0 <= i < 9 :: WorkSpecs(w)[i].key in WORK_KEYS
  {
  }

  lemma WorkFields(w: P.Snapshot)
    ensures var f, specs := Build(WorkSpecs(w)), WorkSpecs(w);
      && OnlyKeys(f, WORK_KEYS)
      && Get(f, WorkId) == specs[0].value && Get(f, CorrelationId) == specs[1].value
      && Get(f, CorrelationSource) == specs[2].value && Get(f, Operation) == specs[3].value
      && Get(f, AttributionKey) == specs[4].value && Get(f, CausationKey) == specs[5].value
      && Get(f, OriginKey) == specs[6].value && Get(f, Depth) == specs[7].value && Get(f, ReplayKey) == specs[8].value
  {
    var specs := WorkSpecs(w);
    WorkSpecsDistinct(w);
    BuiltKeys(specs, WORK_KEYS);
    forall i: nat | i < 9 ensures Get(Build(specs), specs[i].key) == specs[i].value {
      GetBuilt(specs, i);
    }
    assert specs[0].key == WorkId && specs[1].key == CorrelationId && specs[2].key == CorrelationSource;
    assert specs[3].key == Operation && specs[4].key == AttributionKey && specs[5].key == CausationKey;
    assert specs[6].key == OriginKey && specs[7].key == Depth && specs[8].key == ReplayKey;
  }

  lemma OriginAndDepthComeBack(w: P.Snapshot)
    ensures var specs := WorkSpecs(w);
      && OriginIn(specs[6].value) == StoredOrigin(specs[6].value) == Some(w.origin)
      && DepthIn(specs[7].value) == StoredDepth(specs[7].value) == Some(w.depth)
  {
    TextsComeBack();
  }

  lemma PlainValid(w: P.Snapshot)
    requires P.Valid(w)
    ensures P.Valid(w.Plain())
  {
  }

  lemma PartsAssemble(f: seq<Field>, w: P.Snapshot)
    requires P.Valid(w)
    requires Get(f, WorkId) == Some(String(w.workId)) && Get(f, CorrelationId) == Some(String(w.correlationId))
    requires Get(f, CorrelationSource) == Some(String(SourceText(w.correlationSource)))
    requires Get(f, Operation) == Some(String(w.operation))
    ensures Assemble(f, Some(w.attribution), Some(w.causation), Some(w.origin), Some(w.depth), Some(w.Plain().replay))
         == Some(w.Plain())
  {
    TextsComeBack();
    PlainValid(w);
  }

  lemma ReplayPartComesBack(w: P.Snapshot)
    requires P.Valid(w)
    ensures var out := WorkSpecs(w)[8].value; ReplayIn(out) == StoredReplay(out) == Some(w.Plain().replay)
  {
    if w.replay.Some? { ReplayComesBack(w.replay.value); }
  }

  /** The parts both readers see in what a work context is written as. */
  lemma PartsComeBack(w: P.Snapshot)
    requires P.Valid(w)
    ensures var f := Build(WorkSpecs(w));
      && AttributionIn(Get(f, AttributionKey)) == StoredAttribution(Get(f, AttributionKey)) == Some(w.attribution)
      && ReferenceIn(Get(f, CausationKey)) == StoredReference(Get(f, CausationKey)) == Some(w.causation)
      && OriginIn(Get(f, OriginKey)) == StoredOrigin(Get(f, OriginKey)) == Some(w.origin)
      && DepthIn(Get(f, Depth)) == StoredDepth(Get(f, Depth)) == Some(w.depth)
      && ReplayIn(Get(f, ReplayKey)) == StoredReplay(Get(f, ReplayKey)) == Some(w.Plain().replay)
  {
    WorkFields(w);
    AttributionComesBack(w.attribution);
    ReferenceComesBack(w.causation);
    OriginAndDepthComeBack(w);
    ReplayPartComesBack(w);
  }

  lemma ReadersAssemble(f: seq<Field>)
    ensures OnlyKeys(f, WORK_KEYS) ==>
      WorkIn(Some(Object(f)))
      == Assemble(f, AttributionIn(Get(f, AttributionKey)), ReferenceIn(Get(f, CausationKey)), OriginIn(Get(f, OriginKey)),
                  DepthIn(Get(f, Depth)), ReplayIn(Get(f, ReplayKey)))
    ensures
      DecodeWork(Some(Object(f)))
      == Assemble(f, StoredAttribution(Get(f, AttributionKey)), StoredReference(Get(f, CausationKey)),
                  StoredOrigin(Get(f, OriginKey)), StoredDepth(Get(f, Depth)), StoredReplay(Get(f, ReplayKey)))
  {
  }

  /** Both readers restore every valid work context; the replay object comes back with its two written members. */
  lemma WorkComesBack(w: P.Snapshot)
    requires P.Valid(w)
    ensures WorkIn(Some(WorkOut(w))) == Some(w.Plain())
    ensures DecodeWork(Some(WorkOut(w))) == Some(w.Plain())
  {
    WorkFields(w);
    PartsComeBack(w);
    PartsAssemble(Build(WorkSpecs(w)), w);
    ReadersAssemble(Build(WorkSpecs(w)));
  }

  /** What `workIn` reads is valid and plain, so writing and reading it again changes nothing. */
  lemma WorkInIsCanonical(value: Option<Json>)
    requires WorkIn(value).Some?
    ensures var w := WorkIn(value).value; P.Valid(w) && w.Plain() == w && WorkIn(Some(WorkOut(w))) == Some(w)
  {
    WorkComesBack(WorkIn(value).value);
  }
}
