/**
 * When a document takes a change and what the change is, and which events leave it alone
 * (src/modules/document/domain/document.ts, src/workflows/document-processing/infra/job-events.ts).
 */
module DocumentEffects {
  import opened Prelude
  import opened Ids
  import opened D = Documents
  import J = Jobs
  import W = Workflow

  // ----- Names -----

  /** What counts as blank at the ends of a name. */
  lemma BlankIs(c: char)
    ensures D.IsSpace(c) <==>
      c as int in {9, 10, 11, 12, 13, 32, 160, 5760, 8192, 8193, 8194, 8195, 8196, 8197, 8198, 8199, 8200, 8201, 8202,
                   8232, 8233, 8239, 8287, 12288, 65279}
  {
  }

  lemma {:induction false} StartTrimmed(s: string) returns (blank: string)
    ensures s == blank + TrimStart(s) && forall c | c in blank :: D.IsSpace(c)
    decreases |s|
  {
    if s != "" && D.IsSpace(s[0]) {
      var rest := StartTrimmed(s[1..]);
      blank := [s[0]] + rest;
    } else {
      blank := "";
    }
  }

  lemma {:induction false} EndTrimmed(s: string) returns (blank: string)
    ensures s == TrimEnd(s) + blank && forall c | c in blank :: D.IsSpace(c)
    decreases |s|
  {
    if s != "" && D.IsSpace(s[|s| - 1]) {
      var rest := EndTrimmed(s[..|s| - 1]);
      blank := rest + [s[|s| - 1]];
    } else {
      blank := "";
    }
  }

  /** Trimming takes off the blanks at both ends, and nothing else. */
  lemma TrimIs(s: string) returns (before: string, after: string)
    ensures s == before + Trim(s) + after && (forall c | c in before + after :: D.IsSpace(c))
    ensures Trim(s) != "" ==> !D.IsSpace(Trim(s)[0]) && !D.IsSpace(Trim(s)[|Trim(s)| - 1])
  {
    before := StartTrimmed(s);
    after := EndTrimmed(TrimStart(s));
    TrimStartFixed(s);
    TrimEndFixed(TrimStart(s));
  }

  /** A document is created exactly from a name of 1 to 200 characters and a key of 1 to 512, blanks at the ends aside. */
  lemma CreatedIff(id: ID, organizationId: ID, name: string, storageKey: Option<string>, at: Date)
    ensures
      var r := D.Create(id, organizationId, name, storageKey, at);
      && (r.Ok? <==> 1 <= |Trim(name)| <= 200 && at.At? && (storageKey.Some? ==> 1 <= |Trim(storageKey.value)| <= 512))
      && (r.Ok? ==>
            r.value == Document(id, organizationId, Trim(name), if storageKey.Some? then Some(Trim(storageKey.value)) else None,
                                Active, None, None, 0, at.ms, at.ms, None, 0))
  {
  }

  /** Which stored rows are documents. */
  lemma RestoredIff(row: Document)
    ensures D.Restore(row).Ok? <==>
      && 1 <= |Trim(row.name)| <= 200 && (row.storageKey.Some? ==> 1 <= |Trim(row.storageKey.value)| <= 512)
      && 0 <= row.attempt <= 9007199254740991 && 1 <= row.version <= 9007199254740991 && row.createdAt <= row.updatedAt
      && (row.failureCode.Some? ==> IsWord(row.failureCode.value, 128) && row.status in {ProcessingFailed, Archived})
      && (row.status == ProcessingFailed ==> row.failureCode.Some?)
      && (row.status == Archived <==> row.archivedAt.Some?)
  {
    if row.failureCode.Some? { WordIs(row.failureCode.value, 128); }
  }

  // ----- Transitions -----

  /** Beginning a run: never before the last change, not on an archived document, and on a processed one not at all; the run
      in progress stays as it is, any other is replaced. */
  lemma BeginIs(d: Document, at: Date, run: ID)
    ensures BeginProcessing(d, at, run).Ok? <==> at.At? && d.updatedAt <= at.ms && d.status in {Active, Processing, ProcessingFailed}
    ensures BeginProcessing(d, at, run).Ok? && d.status == Processing && d.run == Some(run) ==> BeginProcessing(d, at, run) == Ok(Same)
    ensures BeginProcessing(d, at, run).Ok? && !(d.status == Processing && d.run == Some(run)) ==>
      BeginProcessing(d, at, run)
      == Ok(Moved(d.(status := Processing, failureCode := None, run := Some(run), attempt := 0, updatedAt := at.ms)))
  {
  }

  lemma ArchiveIs(d: Document, at: Date)
    ensures
      var r := Archive(d, at);
      && (r.Ok? <==> at.At? && d.updatedAt <= at.ms && d.status != Archived)
      && (r.Ok? ==> r.value == d.(status := Archived, archivedAt := Some(at.ms), updatedAt := at.ms))
  {
  }

  /** An outcome counts only for the run the document waits on or last waited on, from its attempt on, and not once it is
      processed or archived; a document that was never given a run takes the first. */
  lemma OutcomeIs(d: Document, at: Date, o: Outcome)
    requires at.At? && 0 <= o.attempt <= MAX_SAFE_INTEGER
    requires o.result.Failing? ==> o.failureCode.Some? && IsWord(o.failureCode.value, 128)
    ensures
      var waits := (d.status == Processing || d.status == ProcessingFailed)
                   && (d.run == Some(o.run) || (d.run == None && d.status == Processing)) && d.attempt <= o.attempt;
      var shown := o.attempt == d.attempt
                   && ((o.result.Retrying? && d.status == Processing) || (o.result.Failing? && d.status == ProcessingFailed));
      D.After(d, at, o) ==
        if !waits || shown then d
        else
          d.(run := Some(o.run), attempt := o.attempt, updatedAt := if at.ms < d.updatedAt then d.updatedAt else at.ms,
             status := match o.result
                       case Succeeding => Processed
                       case Retrying => Processing
                       case Failing => ProcessingFailed,
             failureCode := match o.result
                            case Succeeding => None
                            case Retrying => if d.status == Processing then d.failureCode else None
                            case Failing => o.failureCode)
  {
    if o.result.Failing? { WordIs(o.failureCode.value, 128); }
  }

  // ----- Events of others -----

  /** No event touches a document but an acting one of a job of kind document.process whose subject is this document, in
      this organization. */
  lemma OthersIgnored(d: Document, e: W.Event, at: Date)
    requires W.Deliver(d, e, at) != d
    ensures e.eventType in {W.JobRetried, W.JobCompleted, W.JobFailed, W.JobCanceled}
    ensures e.kind == "document.process" && e.subject.Some? && e.subject.value.kind == "document"
    ensures Parse(e.subject.value.id) == Ok(d.id) && Parse(e.organizationId) == Ok(d.organizationId)
  {
  }
}
