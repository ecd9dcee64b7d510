/** The Document aggregate and its processing runs (src/modules/document/domain/document.ts). */
module Documents {
  import opened Prelude
  import opened Ids

  datatype Status = Active | Processing | Processed | ProcessingFailed | Archived

  datatype Document = Document(
    id: ID,
    organizationId: ID,
    name: string,
    storageKey: Option<string>,
    status: Status,
    failureCode: Option<string>,
    run: Option<ID>,
    attempt: int,
    createdAt: int,
    updatedAt: int,
    archivedAt: Option<int>,
    version: int)
  {
    function Saved(): Document { this.(version := version + 1) }
  }

  /** What a transition hands back: the very same object, or a new one that has to be written. */
  datatype Change = Same | Moved(document: Document)

  function Applied(d: Document, c: Change): Document {
    match c
    case Same => d
    case Moved(next) => next
  }

  datatype OutcomeKind = Retrying | Succeeding | Failing

  /** An outcome of processing run `run`; `attempt` orders outcomes of the same run. */
  datatype Outcome = Outcome(run: ID, attempt: int, result: OutcomeKind, failureCode: Option<string>)

  datatype Failure =
    | InvalidName | InvalidStorageKey | InvalidFailureCode | InvalidCreatedAt | InvalidState
    | NonMonotonicTime | InvalidArchivedAt | AlreadyArchived | InvalidStartedAt | IsArchived
    | AlreadyProcessed | InvalidOutcome

  const UNSAVED: int := 0

  /** The white space and line terminators `String.prototype.trim` removes. */
  predicate IsSpace(c: char) {
    var code := c as int;
    || 9 <= code <= 13 || code in {0x20, 0xA0, 0x1680, 0x2028, 0x2029, 0x202F, 0x205F, 0x3000, 0xFEFF}
    || 0x2000 <= code <= 0x200A
  }

  function TrimStart(s: string): string {
    if |s| > 0 && IsSpace(s[0]) then TrimStart(s[1..]) else s
  }

  function TrimEnd(s: string): string {
    if |s| > 0 && IsSpace(s[|s| - 1]) then TrimEnd(s[..|s| - 1]) else s
  }

  function Trim(s: string): string { TrimEnd(TrimStart(s)) }

  function ParseText(s: string, most: nat, failure: Failure): Result<string, Failure> {
    var t := Trim(s);
    if |t| == 0 || |t| > most then Err(failure) else Ok(t)
  }

  function ParseStorageKey(s: Option<string>): Result<Option<string>, Failure> {
    if s.None? then Ok(None)
    else
      match ParseText(s.value, 512, InvalidStorageKey)
      case Ok(t) => Ok(Some(t))
      case Err(e) => Err(e)
  }

  function Create(id: ID, organizationId: ID, name: string, storageKey: Option<string>, createdAt: Date)
    : Result<Document, Failure>
  {
    var parsedName := ParseText(name, 200, InvalidName);
    var parsedKey := ParseStorageKey(storageKey);
    if parsedName.Err? then Err(parsedName.error)
    else if parsedKey.Err? then Err(parsedKey.error)
    else if createdAt.InvalidDate? then Err(InvalidCreatedAt)
    else Ok(Document(id, organizationId, parsedName.value, parsedKey.value, Active, None, None, 0,
                     createdAt.ms, createdAt.ms, None, UNSAVED))
  }

  function Restore(row: Document): Result<Document, Failure> {
    var parsedName := ParseText(row.name, 200, InvalidName);
    var parsedKey := ParseStorageKey(row.storageKey);
    if parsedName.Err? then Err(parsedName.error)
    else if parsedKey.Err? then Err(parsedKey.error)
    else if row.failureCode.Some? && !IsCode(row.failureCode.value, 128) then Err(InvalidFailureCode)
    else if row.version < 1 || row.version > MAX_SAFE_INTEGER || row.attempt < 0 || row.attempt > MAX_SAFE_INTEGER
    then Err(InvalidState)
    else if row.updatedAt < row.createdAt then Err(NonMonotonicTime)
    else if
      || (row.status in {Active, Processing, Processed} && (row.archivedAt.Some? || row.failureCode.Some?))
      || (row.status.ProcessingFailed? && (row.archivedAt.Some? || row.failureCode.None?))
      || (row.status.Archived? && row.archivedAt.None?)
    then Err(InvalidState)
    else Ok(row.(name := parsedName.value, storageKey := parsedKey.value))
  }

  function Archive(d: Document, at: Date): Result<Document, Failure> {
    if at.InvalidDate? then Err(InvalidArchivedAt)
    else if at.ms < d.updatedAt then Err(NonMonotonicTime)
    else if d.status.Archived? then Err(AlreadyArchived)
    else Ok(d.(status := Archived, updatedAt := at.ms, archivedAt := Some(at.ms)))
  }

  /** Wait on run `run`: the same run again is a no-op, another run replaces the one in progress. */
  function BeginProcessing(d: Document, at: Date, run: ID): Result<Change, Failure> {
    if at.InvalidDate? then Err(InvalidStartedAt)
    else if at.ms < d.updatedAt then Err(NonMonotonicTime)
    else if d.status.Archived? then Err(IsArchived)
    else if d.status.Processing? && d.run == Some(run) then Ok(Same)
    else if d.status.Processed? then Err(AlreadyProcessed)
    else Ok(Moved(d.(status := Processing, failureCode := None, run := Some(run), attempt := 0, updatedAt := at.ms)))
  }

  /** An outcome this document no longer waits for, or never did. */
  predicate Stale(d: Document, o: Outcome) {
    || d.status in {Archived, Active, Processed}
    || !(d.run == Some(o.run) || (d.run.None? && d.status.Processing?))
    || o.attempt < d.attempt
  }

  function ApplyOutcome(d: Document, at: Date, o: Outcome): Result<Change, Failure> {
    if at.InvalidDate? then Err(InvalidOutcome)
    else if o.attempt < 0 || o.attempt > MAX_SAFE_INTEGER then Err(InvalidOutcome)
    else if Stale(d, o) then Ok(Same)
    else
      var base := d.(run := Some(o.run), attempt := o.attempt, updatedAt := Max(at.ms, d.updatedAt));
      match o.result
      case Succeeding => Ok(Moved(base.(status := Processed, failureCode := None)))
      case Retrying =>
        if d.status.Processing? then
          if o.attempt == d.attempt then Ok(Same) else Ok(Moved(base))
        else Ok(Moved(base.(status := Processing, failureCode := None)))
      case Failing =>
        if o.failureCode.None? || !IsCode(o.failureCode.value, 128) then Err(InvalidFailureCode)
        else if d.status.ProcessingFailed? && o.attempt == d.attempt then Ok(Same)
        else Ok(Moved(base.(status := ProcessingFailed, failureCode := o.failureCode)))
  }

  // ----- What every transition keeps -----

  ghost predicate WellFormed(d: Document) {
    d.version >= 0 && Restore(d.(version := 1)) == Ok(d.(version := 1))
  }

  lemma {:induction false} TrimStartFixed(s: string)
    ensures var t := TrimStart(s); |t| == 0 || !IsSpace(t[0])
    decreases |s|
  {
    if |s| > 0 && IsSpace(s[0]) { TrimStartFixed(s[1..]); }
  }

  lemma {:induction false} TrimEndFixed(s: string)
    requires |s| == 0 || !IsSpace(s[0])
    ensures var t := TrimEnd(s);
      (|t| == 0 || (!IsSpace(t[0]) && !IsSpace(t[|t| - 1]))) && TrimEnd(t) == t
    decreases |s|
  {
    if |s| > 0 && IsSpace(s[|s| - 1]) {
      assert |s| > 1;
      TrimEndFixed(s[..|s| - 1]);
    }
  }

  /** Trimming twice is trimming once, so a stored name reads back as it was written. */
  lemma TrimIdempotent(s: string)
    ensures Trim(Trim(s)) == Trim(s)
  {
    TrimStartFixed(s);
    TrimEndFixed(TrimStart(s));
  }

  lemma CreateWellFormed(id: ID, organizationId: ID, name: string, storageKey: Option<string>, createdAt: Date)
    ensures var r := Create(id, organizationId, name, storageKey, createdAt);
      r.Ok? ==> WellFormed(r.value)
  {
    TrimIdempotent(name);
    if storageKey.Some? { TrimIdempotent(storageKey.value); }
  }

  /** Every transition keeps a document storable, its identity and version, and never rewinds its clock. */
  lemma ArchiveKeeps(d: Document, at: Date)
    requires WellFormed(d) && Archive(d, at).Ok?
    ensures WellFormed(Archive(d, at).value) && Kept(d, Archive(d, at).value)
  {
  }

  lemma BeginKeeps(d: Document, at: Date, run: ID)
    requires WellFormed(d) && BeginProcessing(d, at, run).Ok?
    ensures var next := Applied(d, BeginProcessing(d, at, run).value); WellFormed(next) && Kept(d, next)
  {
  }

  lemma OutcomeWellFormed(d: Document, at: Date, o: Outcome)
    requires WellFormed(d)
    ensures WellFormed(After(d, at, o))
  {
  }

  lemma OutcomeKept(d: Document, at: Date, o: Outcome)
    ensures Kept(d, After(d, at, o))
  {
  }

  lemma OutcomeKeeps(d: Document, at: Date, o: Outcome)
    requires WellFormed(d)
    ensures WellFormed(After(d, at, o)) && Kept(d, After(d, at, o))
  {
    OutcomeWellFormed(d, at, o);
    OutcomeKept(d, at, o);
  }

  ghost predicate Kept(a: Document, b: Document) {
    && b.id == a.id && b.organizationId == a.organizationId && b.name == a.name
    && b.storageKey == a.storageKey && b.createdAt == a.createdAt && b.version == a.version
    && a.updatedAt <= b.updatedAt
  }

  // ----- Outcomes of one run -----

  function After(d: Document, at: Date, o: Outcome): Document {
    match ApplyOutcome(d, at, o)
    case Ok(c) => Applied(d, c)
    case Err(_) => d
  }

  /** A repeated outcome changes nothing, at whatever time it is delivered again. */
  lemma OutcomeIdempotent(d: Document, at: Date, again: Date, o: Outcome)
    requires ApplyOutcome(d, at, o).Ok? && again.At?
    ensures ApplyOutcome(After(d, at, o), again, o) == Ok(Same)
  {
  }

  /** Within a run the recorded attempt never falls, and an outcome of another run is an identity. */
  lemma OutcomeOrdered(d: Document, at: Date, o: Outcome)
    requires d.run.Some?
    ensures After(d, at, o).run == d.run && After(d, at, o).attempt >= d.attempt
    ensures Some(o.run) != d.run ==> After(d, at, o) == d
    ensures o.attempt < d.attempt ==> After(d, at, o) == d
  {
  }

  /** Beginning a different run makes every outcome of the older run stale, whatever its attempt. */
  lemma NewRunSupersedes(d: Document, at: Date, run: ID, later: Date, o: Outcome)
    requires BeginProcessing(d, at, run).Ok? && o.run != run
    ensures After(Applied(d, BeginProcessing(d, at, run).value), later, o)
         == Applied(d, BeginProcessing(d, at, run).value)
  {
  }
}
