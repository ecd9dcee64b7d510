/** Work contexts: who does what, caused by what, as part of which replay (src/shared/provenance). */
module Provenance {
  import opened Prelude
  import opened Ids
  import JsonTree

  datatype NamedKind = User | Service | System

  datatype Actor = Anonymous | Named(kind: NamedKind, identity: string)

  datatype Attribution = Attribution(initiator: Option<Actor>, onBehalfOf: Option<Actor>, tenant: Option<string>)

  datatype ReferenceKind = Scope | Work | Event

  datatype Reference = Reference(kind: ReferenceKind, id: ID)

  datatype Origin = Request | Message | Schedule | Replayed | Backfill | Startup

  datatype CorrelationSource = Local | External

  /** A member of the stored replay object: one of the two that are validated, or another one the object came with. An
      extra member without a printed value is one that JSON omits, as it does `undefined`. */
  datatype Member = RunIdHere | SourceHere | Extra(name: string, value: Option<JsonTree.Json>)

  /** `members` are the names of the stored object in their order; copies keep them all. */
  datatype Replay = Replay(runId: ID, source: Reference, members: seq<Member>)

  /** The object every factory and decoder builds: run ID, then source. */
  const PLAIN := [RunIdHere, SourceHere]

  function NameOf(m: Member): string {
    match m
    case RunIdHere => "runId"
    case SourceHere => "source"
    case Extra(name, _) => name
  }

  /** An object with both validated members and no name twice. */
  predicate IsLayout(members: seq<Member>) {
    && RunIdHere in members && SourceHere in members
    && (forall i, j | 0 <= i < j < |members| :: NameOf(members[i]) != NameOf(members[j]))
  }

  predicate Prints(m: Member) { m.Extra? ==> m.value.Some? }

  /** The members that JSON prints. */
  function Printed(members: seq<Member>): (r: seq<Member>)
    ensures forall m :: m in r <==> m in members && Prints(m)
  {
    if members == [] then []
    else (if Prints(members[0]) then [members[0]] else []) + Printed(members[1..])
  }

  datatype Snapshot = Snapshot(
    workId: ID,
    correlationId: ID,
    correlationSource: CorrelationSource,
    operation: string,
    attribution: Attribution,
    causation: Option<Reference>,
    origin: Option<Origin>,
    depth: Option<int>,
    replay: Option<Replay>)
  {
    /** The same work with the replay object the codecs write. */
    function Plain(): Snapshot {
      if replay.Some? then this.(replay := Some(replay.value.(members := PLAIN))) else this
    }

    /** The same work without the replay members that JSON omits. */
    function AsPrinted(): Snapshot {
      if replay.Some? then this.(replay := Some(replay.value.(members := Printed(replay.value.members)))) else this
    }
  }

  const MAX_DEPTH := 4294967295

  /** `/^[A-Za-z0-9._:/-]{1,128}$/` */
  predicate IsIdentity(s: string) {
    1 <= |s| <= 128
    && forall i | 0 <= i < |s| :: IsLowerLetter(s[i]) || 'A' <= s[i] <= 'Z' || IsDigit(s[i]) || s[i] in "._:/-"
  }

  /** `/^[a-z][a-z0-9_.:-]{0,127}$/` */
  predicate IsOperation(s: string) {
    1 <= |s| <= 128 && IsLowerLetter(s[0])
    && forall i | 1 <= i < |s| :: IsLowerLetter(s[i]) || IsDigit(s[i]) || s[i] in "_.:-"
  }

  predicate ValidActor(a: Actor) { a.Named? ==> IsIdentity(a.identity) }

  predicate ValidAttribution(a: Attribution) {
    && (a.initiator.Some? ==> ValidActor(a.initiator.value))
    && (a.onBehalfOf.Some? ==>
          && a.initiator.Some? && a.initiator.value.Named?
          && a.onBehalfOf.value.Named? && ValidActor(a.onBehalfOf.value) && a.initiator.value != a.onBehalfOf.value)
    && (a.tenant.Some? ==> IsIdentity(a.tenant.value))
  }

  /** `validateWork` without defaults. Of the replay object it looks at the two members alone. */
  predicate Valid(w: Snapshot) {
    && IsId(w.workId) && IsId(w.correlationId)
    && IsOperation(w.operation)
    && ValidAttribution(w.attribution)
    && (w.replay.Some? <==> w.origin == Some(Replayed))
    && (w.causation.Some? ==>
          IsId(w.causation.value.id) && !(w.causation.value == Reference(Work, w.workId)))
    && (w.depth.Some? ==>
          && 0 <= w.depth.value <= MAX_DEPTH
          && !(w.correlationSource.Local? && w.depth.value == 0 && w.causation.Some?)
          && !(w.depth.value > 0 && w.causation.None?))
    && (w.replay.Some? ==>
          && IsId(w.replay.value.source.id) && IsId(w.replay.value.runId) && IsLayout(w.replay.value.members)
          && !(w.replay.value.source == Reference(Work, w.workId)))
  }

  /** `restoreWork` */
  function Restore(w: Snapshot): Option<Snapshot> { if Valid(w) then Some(w) else None }
}
