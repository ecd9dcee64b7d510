# Verified models of the concurrency, workflow and codec kernels

This project models, in Dafny 4.11, the parts of the repository whose correctness is not visible from one function:
protocols between workers, state machines that meet out-of-order events, version-checked writers, and codecs. Each group
below names its modules and its main results. `dafny verify dfyconfig.toml` checks everything.

- **Event delivery** (`Ledger`, `Outbox`, `Mailbox`, `Delivery`, `DeliveryStores`, `DeliveryProgress`, `StoreContracts`,
  `Retry`, `Events`). The outbox and the inbox are classes over a ledger of claimed, settled, retried and dead rows.
  `Delivery` composes them with an at-least-once queue, any number of workers, crashes between any two effects, expired
  leases and lost answers. No event is lost for any subscribed consumer, and only the latest claim of a row settles it;
  `DeliveryStores` shows that the classes' methods are the protocol's steps, `StoreContracts` what each query writes,
  and `DeliveryProgress` that the steps lead to a handler.
- **In-process inbox and audit** (`Book`, `MailboxBook`, `InMemoryInbox`, `Audit`, `AuditRuns`). A receipt book is the
  specification that both the in-process inbox and a mailbox without lease expiry follow; the audit projection on top of
  it records each event exactly once.
- **Jobs and documents** (`Jobs`, `JobHistory`, `Documents`, `DocumentEffects`, `Workflow`, `FailureCodes`,
  `DocumentRuns`). A job's events, delivered in any order and repetition and handled concurrently, drive the document to
  the status the job ended in, and to the failure code its last failure was given.
- **Job store** (`JobStore`, `JobRuns`, `JobCommands`). Arbitrary interleavings of reads and version-checked commits are
  serializable, keep one open job per subject, and each command is a read-and-write at one point inside its call.
- **Accounts** (`Accounts`, `AccountStore`, `Logins`, `AccountRuns`, `AccountSteps`, `LoginOverlaps`). Every live
  session was opened with the current password, a reset challenge works once, and a login keeps the session cap;
  `LoginOverlaps` bounds what logins that overlap leave.
- **Strict JSON** (`JsonGrammar`, `JsonParser`, `JsonCompleteness`, `JsonSoundness`, `JsonCursor`, `JsonPrinter`,
  `JsonTexts`). RFC 8259, sections 2 to 8, as concrete syntax trees; the cursor parser computes a function that accepts
  exactly the grammar within its bounds.
- **Pages and cursors** (`Keyset`, `PageOrder`, `Traversal`, `Cursor`, `Base64Url`, `Utf8`). Traversal by cursor, over
  the wire form of the cursors, is complete and stable. base64url is section 5 of RFC 4648, UTF-8 is RFC 3629.
- **Identifiers** (`Ids`, `IdLayout`, `V7`). UUIDv7 by section 5.7 of RFC 9562, with the monotonic counter of its
  section 6.2.
- **Rate limits and migrations** (`RateLimit`, `Migrations`, `MigrationRows`). Two stores against one unbounded counter;
  a ledger against the lists applied to it.
- **Provenance** (`JsonTree`, `Provenance`, `WorkCodec`, `WorkTexts`, `Envelopes`). Work contexts as JSON trees,
  envelopes in normal form, and the check that ties an event to the work that creates it.

`Prelude` holds the shared value types.

Classes are modelled as classes whose methods state their whole new state through a specification function; what the
source promises is proved about those functions and about runs of them. Several clients at once are modelled by runs
that name the state each client read, so that every interleaving of reads and commits is a run.

## Where the code and its documentation differ

- `InMemoryInbox` documents the same semantics as the PostgreSQL inbox, but an invalid consumer name in `accept` leaves
  the event and the receipts of the consumers named before it (`InMemoryInbox.Inbox.Accept`), where PostgreSQL leaves
  nothing (`Mailbox.Store.Accept`). It also compares a repeated event by its bytes, where PostgreSQL compares the JSON
  value.
- The session cap holds only for a cap of at least one: with zero a login still leaves one session (`Logins.LoginCap`).
  The deployed settings bound the cap to 1..1000 (src/modules/identity/infra/session-settings.ts:34), so they never give
  zero.
- The order of a failure and the retry of the same attempt matters to a document
  (`Workflow.OrderIndependentIffNoConflict`, with `Workflow.LateFailureExample`).
- A delivery lowers the remaining attempts of its consumer only while attempts are left under the policy it is made with
  (`Book.DeliveryLowersBudget`); a policy lowered between deliveries can hand out one attempt more
  (`Book.LoweredPolicyKeepsBudget`). Under one policy every delivery lowers them (`Book.OnePolicyLowersBudget`).
- An adopted database can run a baseline after all. It never does exactly if the list of the adopting call reaches
  `baselineThrough` or ends at the greatest version; otherwise a later list that brings the missing baselines runs them
  on a database that already has their schema (`Migrations.AdoptedNeverRunsBaselineIff`, with failing runs under a
  non-empty and an empty list in `Migrations.AdoptedUnderShortList` and `Migrations.AdoptedUnderEmptyList`).
- The two rate limit stores are interchangeable as long as the clock does not go back (`RateLimit.StoresAgree`). For any
  clock each counts as an unbounded counter does exactly until it loses the window (`RateLimit.StoresCountIff`), which
  the one-slot store does at a call of the bucket in another window; `RateLimit.SteppedBack` is a run on which they
  differ.
- The provenance check compares the whole stored replay object as JSON prints it, while envelopes write its run ID and
  source alone, in this order. Replays built by the factory are such objects; `restoreWork` also accepts one in the
  other order or with further members, and keeps it whole. Such a work can publish no event: envelopes are created for
  it and refused (`Envelopes.CreatedEventAcceptedIff`, `Envelopes.SourceFirstRefused`, `Envelopes.ExtraMemberRefused`).
- `LegacyHistory` speaks of refusing any other state; a lost answer to COMMIT reports failure although the call took
  effect (`Migrations.Database.Migrate`).

## Model

| member | source | states |
|---|---|---|
| `Delivery.NothingIsEverLost` | src/shared/events/postgres/store.ts:83-190 | In every reachable state, with concurrent workers, crashes at any point, expired leases and lost answers, each enqueued event is for each subscribed consumer still in the outbox, in the queue, held by an unsettled receipt, or handled |
| `Delivery.DrainedMeansHandled` | src/shared/events/postgres/store.ts:265-382 | When both tables are settled and the queue is empty, every enqueued event was handled by every subscribed consumer |
| `Delivery.StepInv` | src/shared/events/postgres/store.ts:83-431 | One invariant is kept by all twenty-two steps of outbox, queue, inbox, requeueing, pruning and crashing |
| `Delivery.AttemptsCounted` | src/shared/events/postgres/store.ts:86-121 | In every reachable state of both tables attempts equal the claims since the last requeue and never exceed the policy, and only pending rows are leased, under the latest claim |
| `Delivery.SupersededDispatchChangesNothing` | src/shared/events/postgres/store.ts:134-150 | A dispatcher that settles without being the row's latest claim, or after its lease expired, changes no row; no settle touches stream, queue, events or receipts |
| `Delivery.SentMeansHandedOver` | src/shared/events/postgres/store.ts:152-190 | In every reachable state the event of a row marked sent is in the queue or with every subscribed consumer: of whatever a publisher answers, only a durable receipt for that very event settles the row |
| `Delivery.AnsweredInv` | src/shared/events/postgres/store.ts:163-180 | Recording any answer keeps the invariant, if a durable receipt for the event is only given once the event is handed over |
| `Delivery.SupersededHandlingChangesNothing` | src/shared/events/postgres/store.ts:350-372 | A deliverer that settles without being the receipt's latest claim changes no receipt; no settle touches outbox, stream, queue or events |
| `DeliveryStores.EnqueueFollows` | src/shared/events/postgres/store.ts:35-74 | What an enqueue leaves is the protocol's enqueue step; a refused one is that step changing nothing |
| `DeliveryStores.OutboxClaimFollows` | src/shared/events/postgres/store.ts:83-124 | What the outbox's claim leaves in its table is the protocol's sweep followed by its claim step, which is enabled and hands its worker the very lease the claim answers; a claim that finds nothing means that no claim step is enabled |
| `DeliveryStores.OutboxFinishFollows` | src/shared/events/postgres/store.ts:134-150 | Acknowledging or releasing is the protocol's settle step, and lease_lost is that step changing nothing |
| `DeliveryStores.OutboxRequeueFollows` | src/shared/events/postgres/store.ts:212-224 | Whatever table the outbox's requeue leaves is the one the requeue step leaves |
| `DeliveryStores.OutboxPruneFollows` | src/shared/events/postgres/store.ts:226-245 | What it prunes an enabled prune step removes |
| `DeliveryStores.AcceptedIff` | src/shared/events/postgres/store.ts:265-288 | The mailbox accepts exactly what the protocol accepts, and a refusal leaves events and receipts as they were |
| `DeliveryStores.AcceptFollows` | src/shared/events/postgres/store.ts:265-288 | Accepted or refused, it leaves the events and receipts of the protocol's accept |
| `DeliveryStores.TransferAcceptFollows` | src/shared/events/nats/broker.ts:356-398 | A transfer's accept is the accepting step of its message: the worker goes on to acknowledge only what the mailbox took |
| `DeliveryStores.MailboxNothingFollows` | src/shared/events/postgres/store.ts:299-330 | A mailbox claim that finds nothing leaves the sweep, after which no receipt of the consumer can be claimed |
| `DeliveryStores.MailboxClaimFollows` | src/shared/events/postgres/store.ts:290-345 | Any other mailbox claim is the sweep and then the enabled claim step, which hands its worker the claimed event and attempt |
| `DeliveryStores.MailboxFinishFollows` | src/shared/events/postgres/store.ts:350-372 | Recording an outcome is the protocol's settle step, lease lost or not |
| `DeliveryStores.MailboxRequeueFollows` | src/shared/events/postgres/store.ts:384-396 | Whatever the mailbox's requeue leaves is what the requeue step leaves; under an invalid name nothing changes |
| `DeliveryStores.MailboxPruneFollows` | src/shared/events/postgres/store.ts:413-431 | What the mailbox prunes an enabled prune step removes |
| `Delivery.NothingTerminated` | src/shared/events/nats/broker.ts:370-382 | The queue never holds an undecodable message, so the termination branch of the transfer is never taken on a published event |
| `Delivery.PublishDuplicateStep` | src/shared/events/nats/broker.ts:326-352 | A publication the queue already stored keeps the invariant: equal content counts as handed over |
| `Delivery.AcceptMessageStep` | src/shared/events/nats/broker.ts:356-398 | Moving a message into receipts, with its acknowledgement still to come or lost, keeps the invariant |
| `Delivery.PublishDirectStep` | src/platform/events/event-delivery.ts:75-81 | Publishing straight into the inbox for the subscribed consumers keeps the invariant |
| `Ledger.OnlyLatestClaimSettles` | src/shared/events/postgres/store.ts:86-150 | With fresh tokens a settle takes effect only under the latest claim of its row and for the attempt the row counts; any other leaves the table as it was |
| `Ledger.HolderSettles` | src/shared/events/postgres/store.ts:299-372 | The holder of the lease does settle the row, and the verdict follows the claims since the last requeue |
| `Ledger.LeaseKept` | src/shared/events/postgres/store.ts:86-121 | Until its holder settles it a claimed row stays under that lease for the whole lease time |
| `Ledger.NoClaimInsideLease` | src/shared/events/postgres/store.ts:299-330 | No second claim of a row lands inside a live lease, over any run with a clock that does not go back |
| `Ledger.RunConsistent` | src/shared/events/postgres/store.ts:86-150 | Every state of every run of claims, settles, sweeps and requeues is consistent with its claim history |
| `Outbox.CandidateUnique` | src/shared/events/postgres/store.ts:86-110 | The row a claim picks is determined by (available_at, event_id) |
| `Outbox.Store.Claim` | src/shared/events/postgres/store.ts:83-124 | Sweep exhausted rows, then lease exactly the earliest due row, or quarantine it if its envelope does not decode |
| `Outbox.Store.Finish` | src/shared/events/postgres/store.ts:126-150 | Settles the row exactly if token and unexpired lease still match; otherwise lease_lost and no change |
| `Outbox.Store.Enqueue` | src/shared/events/postgres/store.ts:35-74 | Stores an event once; another content under the same ID is refused with no change |
| `Outbox.Store.Requeue` | src/shared/events/postgres/store.ts:212-224 | Dead rows, and only they, start over with no attempts |
| `Outbox.Store.Prune` | src/shared/events/postgres/store.ts:226-245 | Removes only sent rows past retention, up to the limit, and all of them if the limit is not reached |
| `StoreContracts.ClaimTakesEarliest` | src/shared/events/postgres/store.ts:86-110 | A claim takes, of all pending rows with attempts left that are due, unleased or expired and not locked, the one with the earliest available_at, ties by the smaller event ID; it finds nothing only if there is none |
| `StoreContracts.ClaimWrites` | src/shared/events/postgres/store.ts:86-124 | Exhausted rows without a live lease become dead, the claimed row is leased for 30 seconds and one attempt further, or dead as undecodable; every other row stays |
| `StoreContracts.FinishWrites` | src/shared/events/postgres/store.ts:134-150 | Only the row's own token before its lease runs out settles it: sent, dead after the last attempt, or pending again after the retry delay with the error cut to 200 characters |
| `StoreContracts.VerdictIs` | src/shared/events/postgres/store.ts:163-180 | Only a durable receipt for this very event counts as sent; any other receipt, and any failure, becomes the row's error |
| `StoreContracts.EnqueueWrites` | src/shared/events/postgres/store.ts:35-74 | A new event waits at once with no attempt made; a repeated one changes nothing |
| `StoreContracts.RequeueWrites` | src/shared/events/postgres/store.ts:212-224 | Dead rows, one or all, wait at once with no attempt made and no error; others stay |
| `StoreContracts.PruneTakes` | src/shared/events/postgres/store.ts:226-245 | Only sent rows finished before the retention bound go, and below the limit all of them |
| `Mailbox.Store.Accept` | src/shared/events/postgres/store.ts:265-288 | All or nothing: the event once, one receipt per named consumer that has none |
| `Mailbox.Store.Claim` | src/shared/events/postgres/store.ts:290-345 | Sweep, then lease exactly the consumer's earliest due receipt |
| `Mailbox.Store.Finish` | src/shared/events/postgres/store.ts:350-382 | Settles the receipt exactly if the token still matches, expired or not |
| `Mailbox.Store.Prune` | src/shared/events/postgres/store.ts:416-431 | Removes only events all of whose receipts are processed and past retention, with their receipts |
| `StoreContracts.MailboxClaimTakesEarliest` | src/shared/events/postgres/store.ts:299-330 | The same order among one consumer's receipts |
| `StoreContracts.MailboxClaimWrites` | src/shared/events/postgres/store.ts:290-345 | The same writes, on that consumer's receipts alone |
| `StoreContracts.MailboxFinishWrites` | src/shared/events/postgres/store.ts:350-372 | The receipt's own token settles it even after its lease ran out |
| `StoreContracts.AcceptWrites` | src/shared/events/postgres/store.ts:265-288 | Every named consumer without a receipt gets one waiting at once; no other receipt and no stored event changes |
| `WorkTexts.ConsumerIs` | src/shared/events/inbox.ts:60-60 | The characters and length of a consumer name |
| `StoreContracts.MailboxRequeueWrites` | src/shared/events/postgres/store.ts:384-396 | The consumer's dead receipts wait at once with no attempt made; others stay |
| `StoreContracts.MailboxPruneTakes` | src/shared/events/postgres/store.ts:413-431 | An event goes only once each of its receipts was processed before the retention bound |
| `DeliveryProgress.CanBeDelivered` | src/shared/events/postgres/store.ts:83-190 | From any sound state eight enabled steps take an event that is first in line through outbox, queue and mailbox to its handler, its row sent, its message acknowledged, its receipt processed |
| `DeliveryProgress.PublishesAgain` | src/shared/events/nats/broker.ts:326-352 | A repeated publication is confirmed exactly if the stream holds the same content |
| `DeliveryProgress.PublishesDirectly` | src/platform/events/event-delivery.ts:75-81 | Without a queue the mailbox confirms what it accepts, with a receipt for every consumer |
| `InMemoryInbox.Inbox.Accept` | src/shared/events/in-memory-inbox.ts:32-57 | Other bytes under a stored ID are refused unchanged; else one opening step of the receipt book, each receipt due at its own clock reading; an invalid consumer name keeps the event and the receipts of the consumers named before it |
| `InMemoryInbox.Inbox.Lease` | src/shared/events/in-memory-inbox.ts:59-85 | Leases exactly the consumer's least due receipt by (availableAt, sequence), as a lease step of the book, or finds none due |
| `InMemoryInbox.LeaseTakesFirst` | src/shared/events/in-memory-inbox.ts:66-78 | Of the consumer's pending, unleased, due receipts it leases the one available earliest, ties by the order of opening; none only if there is none |
| `InMemoryInbox.Inbox.Pick` | src/shared/events/in-memory-inbox.ts:66-79 | The scan returns the first due receipt of the consumer, and nothing only if none is due |
| `InMemoryInbox.Inbox.Settle` | src/shared/events/in-memory-inbox.ts:86-109 | Recording the handler's answer is the settle step of the book, with the delivery it reports |
| `InMemoryInbox.Inbox.Requeue` | src/shared/events/in-memory-inbox.ts:111-122 | Requeueing is one step of the book on exactly the consumer's dead receipts, and counts them |
| `MailboxBook.ClaimFollows` | src/shared/events/postgres/store.ts:290-345 | Without lease expiry the PostgreSQL claim changes nothing but the lease of the earliest waiting receipt of the same book |
| `MailboxBook.ClaimFindsWhatIsDue` | src/shared/events/postgres/store.ts:299-330 | It finds exactly what the book has due |
| `MailboxBook.FinishFollows` | src/shared/events/postgres/store.ts:350-372 | Its settle is the settle step of the same book |
| `MailboxBook.RequeueFollows` | src/shared/events/postgres/store.ts:384-396 | Its requeue is the requeue step of the same book |
| `MailboxBook.AcceptFollows` | src/shared/events/postgres/store.ts:265-288 | Its accept is the opening step of the same book |
| `Book.OthersUntouched` | src/shared/events/in-memory-inbox.ts:59-122 | A step touches no receipt but the ones it names, so no other consumer |
| `Book.DeliveryLowersBudget` | src/shared/events/in-memory-inbox.ts:79-101 | A delivery strictly lowers the sum of remaining attempts of its consumer if and only if the receipt had attempts left, and leaves the sums of others |
| `Book.OnePolicyLowersBudget` | src/shared/events/in-memory-inbox.ts:59-109 | Under one policy every delivery that follows any run strictly lowers the remaining attempts of its consumer and leaves those of others |
| `Book.LoweredPolicyKeepsBudget` | src/shared/events/in-memory-inbox.ts:59-101 | A run after which a lowered policy still hands out a delivery that lowers nothing |
| `Book.DeliveriesEnd` | src/shared/events/in-memory-inbox.ts:59-109 | However handlers answer, a consumer makes at most as many deliveries as its receipts have attempts left |
| `Retry.DelayBounds` | src/shared/events/retry.ts:22-30 | A delay is at least half its ceiling and below the ceiling |
| `Retry.CeilingDoubles` | src/shared/events/retry.ts:21-27 | The ceiling starts at the base, doubles with each attempt up to the thirty-first, and stops at the maximum |
| `Retry.DelaySpans` | src/shared/events/retry.ts:21-35 | Every whole delay from half the ceiling up to the ceiling comes up for some random reading |
| `Retry.DelayMonotone` | src/shared/events/retry.ts:21-35 | A greater random reading never waits less |
| `Retry.DefaultTotalWait` | src/shared/events/retry.ts:15-35 | The eleven default waits total from 405,750 ms up to, not including, 811,500 ms |
| `Audit.FirstPerEventIs` | src/modules/audit/infra/in-memory/adapters.ts:11-16 | Of any sequence of record attempts exactly the first of each event remains, and no event has two entries |
| `Audit.Store.Record` | src/modules/audit/infra/in-memory/store.ts:4-20 | Index and list always agree with the first attempts; the answer is the one entry of the event |
| `Audit.Subscription.DeliverOne` | src/modules/audit/infra/in-memory/subscription.ts:26-34 | At-least-once delivery composed with the writer: whatever the audit consumer finished is recorded, once, even when answers are lost |
| `Audit.OtherStepsKeepCover` | src/shared/events/in-memory-inbox.ts:32-122 | No inbox step but a successful audit delivery can break that |
| `AuditRuns.AuditedOnce` | src/modules/audit/infra/in-memory/adapters.ts:11-16 | In every state of every run of inbox steps with record attempts in between each event has at most one entry, each finished audit delivery has one, and an entry once written stands |
| `AuditRuns.AuditLosesNothing` | src/modules/audit/infra/in-memory/adapters.ts:11-16 | Over outbox, queue and mailbox, with crashes, expired leases, repeated deliveries and late writes: each event has at most one audit entry, and until it has one it is still in the outbox, the queue or an audit receipt |
| `AuditRuns.DrainedMeansAuditedOnce` | src/modules/audit/infra/in-memory/adapters.ts:11-16 | Once tables and queue have drained every enqueued event has exactly one audit entry |
| `Jobs.CreateWellFormed` | src/modules/jobs/domain/job.ts:167-198 | A created job satisfies what restore demands, is open and unsaved |
| `Jobs.TransitionLegal` | src/modules/jobs/domain/job.ts:331-455 | Every transition follows an edge of the lifecycle, keeps the job storable and its identity, never rewinds time, never starts more than maxAttempts attempts, never reopens a closed job |
| `Jobs.EdgeComplete` | src/modules/jobs/domain/job.ts:339-436 | Every edge of the lifecycle is taken by some action |
| `Jobs.SavedRestores` | src/modules/jobs/domain/job.ts:200-290 | A well-formed job, once saved, restores to itself |
| `JobHistory.CreatedIff` | src/modules/jobs/domain/job.ts:167-198 | A job is created exactly from well-formed parts, queued, with three attempts unless told otherwise |
| `JobHistory.RestoredIff` | src/modules/jobs/domain/job.ts:200-300 | Exactly the rows some lifecycle can have written are restored |
| `Prelude.WordIs` | src/modules/jobs/domain/job.ts:103-160 | The characters and length of kinds, subject types and failure codes |
| `JobHistory.AcceptedIff` | src/modules/jobs/domain/job.ts:339-436 | Which action a job accepts next: only in its own states, with attempts left, and never before the last change |
| `JobHistory.HistoryTells` | src/modules/jobs/domain/job.ts:339-436 | Over every run of attempted actions attempts count the starts, and status, times and failure code are those of the last accepted action; nothing else ever changes |
| `JobHistory.LogTells` | src/modules/jobs/app/commands/transition-job.ts:120-165 | The log is the submission and then one event per accepted action, of that action's type, with the attempts made by then and the code of a failure |
| `Documents.BeginKeeps` | src/modules/document/domain/document.ts:360-405 | Beginning a run keeps a document storable, its identity and version, and never rewinds its clock |
| `Documents.OutcomeKeeps` | src/modules/document/domain/document.ts:410-459 | So does every outcome |
| `Documents.ArchiveKeeps` | src/modules/document/domain/document.ts:321-345 | So does archiving |
| `Documents.TrimIdempotent` | src/modules/document/domain/document.ts:105-121 | A trimmed name reads back as it was written |
| `Documents.OutcomeIdempotent` | src/modules/document/domain/document.ts:410-459 | A repeated outcome changes nothing, whenever it comes again |
| `Documents.OutcomeOrdered` | src/modules/document/domain/document.ts:410-459 | Within a run the recorded attempt never falls; outcomes of other runs and older attempts are identities |
| `Documents.NewRunSupersedes` | src/modules/document/domain/document.ts:360-459 | Beginning another run makes every outcome of the older one an identity |
| `DocumentEffects.TrimIs` | src/modules/document/domain/document.ts:105-140 | Trimming takes the blanks off both ends and nothing else |
| `DocumentEffects.BlankIs` | src/modules/document/domain/document.ts:105-140 | The 25 characters that count as blank |
| `DocumentEffects.CreatedIff` | src/modules/document/domain/document.ts:165-196 | A document is created exactly from a name of 1 to 200 and a key of 1 to 512 characters, blanks at the ends aside |
| `DocumentEffects.RestoredIff` | src/modules/document/domain/document.ts:198-319 | Exactly the rows with well-formed parts and a failure code and archive time that fit the status are restored |
| `DocumentEffects.BeginIs` | src/modules/document/domain/document.ts:360-405 | When a run begins and what it resets; the run in progress stays |
| `DocumentEffects.ArchiveIs` | src/modules/document/domain/document.ts:321-358 | When a document is archived and what changes |
| `DocumentEffects.OutcomeIs` | src/modules/document/domain/document.ts:410-459 | Which outcomes count, and the whole document one leaves |
| `DocumentEffects.OthersIgnored` | src/workflows/document-processing/infra/job-events.ts:27-84 | Only retried, completed, failed and canceled events of a document.process job on this very document and organization change it |
| `Workflow.RunFits` | src/modules/jobs/domain/job.ts:339-436 | Every event a job run emits fits the job: attempts in range, legal failure codes, at most one final verdict |
| `Workflow.ActingEventDecodes` | src/workflows/document-processing/infra/job-events.ts:27-84 | Every acting event of a processing job decodes to the outcome it stands for |
| `Workflow.StatusDetermined` | src/modules/document/domain/document.ts:410-459 | After any deliveries, in any order and repetition, the status is a function of the completion, the top attempt and its last verdict |
| `Workflow.CompletionConverges` | src/modules/document/domain/document.ts:410-459 | Any finite sequence drawn with repetition and in any order from a job's events ends processed once it holds the completed event |
| `Workflow.ExhaustionConverges` | src/modules/document/domain/document.ts:410-459 | And ends processing_failed once it holds the failed event of the last allowed attempt |
| `Workflow.OrderIndependentIffNoConflict` | src/modules/document/domain/document.ts:410-459 | The order is irrelevant if and only if the top attempt delivered is not both failed and retried |
| `Workflow.LateFailureExample` | src/modules/document/domain/document.ts:440-459 | The order that fails it: a late copy of a failure already retried leaves the job queued and the document failed |
| `Workflow.DeliverEffect` | src/modules/document/domain/document.ts:410-459 | What one delivery of the job's event does to a waiting document: ignored, or status, attempt, time and failure code taken over |
| `FailureCodes.FailureCodeIs` | src/workflows/document-processing/infra/job-events.ts:60-84 | Under any order and repetition a failed document shows the code given to the action that failed the attempt it shows, job.canceled for a cancellation, of the first such failure delivered since it was last processing or at an earlier attempt; any other document shows none |
| `FailureCodes.ExhaustionCode` | src/workflows/document-processing/infra/job-events.ts:60-84 | Without a cancellation the last allowed failure leaves exactly the code that attempt was failed with |
| `FailureCodes.OneCode` | src/modules/jobs/domain/job.ts:377-393 | Each attempt is failed at most once |
| `Workflow.InOrderSimulation` | src/modules/document/app/commands/process-document.ts:59-117 | Delivered once each in emission order, a job's events keep the document equal to the projection of the job's status |
| `DocumentRuns.HandlingSerializable` | src/modules/document/app/commands/process-document.ts:80-138 | Concurrent handlers that read, decide and commit against the version they read leave what the acknowledged deliveries leave one by one, no-ops acting at their read |
| `DocumentRuns.ConcurrentCompletion` | src/modules/document/app/commands/process-document.ts:80-138 | So under concurrency the document is processed once the handling of the completion is acknowledged |
| `DocumentRuns.ConcurrentExhaustion` | src/modules/document/app/commands/process-document.ts:80-138 | And processing_failed once the failure of the last attempt is |
| `DocumentRuns.Board.Commit` | src/modules/document/infra/in-memory/writer.ts:25-54 | The update is refused exactly if another commit landed since the read; a refused publication puts the document back |
| `DocumentRuns.Board.Finish` | src/modules/document/app/commands/process-document.ts:103-138 | An acknowledged delivery is a no-op on what it read or the newest commit; a refused one left no trace |
| `JobStore.Store.RunningStartedBefore` | src/modules/jobs/infra/in-memory/store.ts:34-44 | The running jobs started before the bound, earliest first and in insertion order among equals, as many as the limit allows, none skipped |
| `JobHistory.ListedAreEarliest` | src/modules/jobs/infra/in-memory/store.ts:34-44 | Only running jobs started before the bound are listed, by start time and then by insertion, and none left out started before one listed |
| `JobStore.Store.OpenJobBySubject` | src/modules/jobs/infra/in-memory/store.ts:10-22 | Finds an open job of organization, kind and subject exactly if there is one |
| `JobStore.Writer.Commit` | src/modules/jobs/infra/in-memory/writer.ts:29-61 | The checks decide alone; a refused publication leaves the store exactly as it was |
| `JobRuns.AcceptedIffUnchanged` | src/modules/jobs/infra/in-memory/writer.ts:41-52 | Under any interleaving an update is accepted if and only if the stored job is still the one its client read; otherwise it is stale and changes nothing |
| `JobRuns.Serializable` | src/modules/jobs/infra/in-memory/writer.ts:29-61 | The store holds what the accepted commands leave when each reads and writes at its commit point: no lost update |
| `JobRuns.VersionCountsCommits` | src/modules/jobs/infra/in-memory/writer.ts:52-56 | A job's version is the number of commits accepted for it |
| `JobRuns.VersionFixesJob` | src/modules/jobs/infra/in-memory/writer.ts:52-52 | Over a whole run equal versions of a job mean equal jobs, and the other way round |
| `JobRuns.OneOpenJob` | src/modules/jobs/infra/in-memory/writer.ts:36-40 | At most one open job per organization, kind and subject, in every state of every run |
| `JobHistory.SubmissionAcceptedIff` | src/modules/jobs/infra/in-memory/writer.ts:36-52 | A submission is stored exactly for a new ID and if no job of the organization, kind and subject is queued, running, or failed with attempts left |
| `JobRuns.ClosedStaysClosed` | src/modules/jobs/domain/job.ts:331-436 | A closed job never reopens |
| `JobRuns.ChangesAreEdges` | src/modules/jobs/domain/job.ts:339-436 | Each stored change of a job follows an edge of the lifecycle and raises the version by one |
| `JobCommands.Board.TransitionJob` | src/modules/jobs/app/commands/transition-job.ts:90-170 | On success the transition was applied to the job stored at the commit; on failure the command wrote nothing; it succeeds exactly for an allowed caller, a job that takes the transition and is unchanged at the commit, and every error names its cause |
| `JobCommands.Board.SubmitWorkflowJob` | src/modules/jobs/app/commands/submit-workflow-job.ts:61-110 | Whatever job is returned was, at a point inside the call, the stored open job of the subject, queued or running; it is called created exactly when the command created it; an error means that it wrote nothing; a job read as open is returned exactly if it is queued, running or can be retried, a new one is created exactly if the subject is free at the commit, and the loser of a race returns the winner's job under the same condition |
| `JobCommands.Board.Reuse` | src/modules/jobs/app/commands/submit-workflow-job.ts:113-134 | An open job just read is returned as it is, or a failed one is queued again by one commit |
| `JobCommands.SubmissionsConverge` | src/modules/jobs/app/commands/submit-workflow-job.ts:56-60 | Two submissions of a subject return the same job if and only if the first job is still open at the second |
| `JobCommands.Board.ExpireStaleJobs` | src/modules/jobs/app/commands/expire-stale-jobs.ts:45-97 | expired + skipped equals the jobs listed; each expired one was failed exactly as listed, each skipped one could not be failed or had changed; stale writes never stop the sweep |
| `AccountStore.Store.CommitSession` | src/modules/identity/infra/in-memory/adapters.ts:282-327 | Evictions and the new session are committed together against an active, unchanged credential; a refused first publication restores every map |
| `AccountStore.Store.CommitReset` | src/modules/identity/infra/in-memory/adapters.ts:421-484 | Challenge, credential, identity and every live session change together or not at all |
| `AccountStore.Store.CommitRevocation` | src/modules/identity/infra/in-memory/adapters.ts:343-368 | A version-checked revocation, undone when its publication is refused |
| `AccountStore.Store.RecordSessionActivity` | src/modules/identity/infra/in-memory/adapters.ts:370-380 | Recording use touches one session and never its version |
| `AccountStore.Store.Announce` | src/modules/identity/infra/in-memory/adapters.ts:74-96 | Events are published in order and the first refused one is taken out again |
| `AccountStore.UndoneRestores` | src/modules/identity/infra/in-memory/adapters.ts:98-105 | Undoing remembered entries restores the map exactly |
| `AccountRuns.NoStalePassword` | src/modules/identity/infra/in-memory/adapters.ts:282-327 | Under every interleaving of logins, evictions, logouts, activity writes, verifications and resets each live session was committed against its credential's current updatedAt |
| `AccountRuns.ResetEndsOldSessions` | src/modules/identity/infra/in-memory/adapters.ts:421-484 | After a committed reset every live session of the identity logged in against the new secret |
| `AccountRuns.ResetAtMostOnce` | src/modules/identity/domain/verification-challenge.ts:229-272 | No reset challenge is consumed by two committed resets |
| `AccountSteps.ResetSpends` | src/modules/identity/domain/verification-challenge.ts:229-272 | A reset takes effect only on an issued reset challenge, from its issue until just before it expires, and stores it as consumed then |
| `AccountSteps.ResetWrites` | src/modules/identity/infra/in-memory/adapters.ts:421-484 | It gives the active credential of that challenge's identity the new hash and the time of the reset, verifies a pending identity, and ends every session of the identity |
| `AccountSteps.SecretChangedIff` | src/modules/identity/domain/credential.ts:276-297 | A secret changes only on an active credential and strictly after its last change |
| `AccountSteps.FreshResetCommits` | src/modules/identity/app/commands/confirm-password-reset.ts:61-159 | Undisturbed, a reset with an issued, unexpired challenge of an active credential goes through |
| `AccountSteps.VerifySpends` | src/modules/identity/app/commands/verify-identity.ts:70-178 | A verification takes effect only on an issued verification challenge inside its lifetime, and activates the pending identity it was issued for |
| `AccountSteps.FreshVerifyCommits` | src/modules/identity/app/commands/verify-identity.ts:70-178 | Undisturbed it goes through |
| `AccountSteps.LoginWrites` | src/modules/identity/app/commands/authenticate-identity.ts:68-200 | A login takes effect only for a verified password of an active credential and identity, unchanged since, and opens a live session with the times given |
| `AccountSteps.FreshLoginCommits` | src/modules/identity/app/commands/authenticate-identity.ts:68-200 | Undisturbed the right password opens the session |
| `AccountSteps.LogoutEnds` | src/modules/identity/app/commands/revoke-session.ts:40-107 | A logout ends exactly the live session as it was read, at the time it gives |
| `AccountSteps.IssueStores` | src/modules/identity/app/commands/issue-verification-challenge.ts:73-157 | A challenge is stored issued, with its lifetime, for an identity that waits for it or may sign in |
| `AccountSteps.RegisterStores` | src/modules/identity/infra/in-memory/adapters.ts:107-141 | A registration stores a new identity and credential under an address no credential has |
| `AccountSteps.PruneAndActivity` | src/modules/identity/infra/in-memory/adapters.ts:370-419 | Pruning takes only ended, expired or idle sessions; using a session moves its last use forward and nothing else |
| `AccountRuns.ResetCredentials` | src/modules/identity/domain/credential.ts:276-297 | A reset moves the credential's updatedAt strictly forward, which is what the login's commit compares |
| `Logins.LoginCap` | src/modules/identity/app/commands/authenticate-identity.ts:209-249 | After an uninterrupted login min(usable before, max(0, maxActive - 1)) + 1 sessions are usable: at most maxActive if and only if maxActive is at least 1 |
| `Logins.LoginEvictsOldest` | src/modules/identity/app/commands/authenticate-identity.ts:209-249 | It evicts only its identity's oldest usable sessions and touches no other identity and no other map |
| `AccountSteps.UsableIs` | src/modules/identity/domain/session.ts:200-248 | A session is usable while live, before it expires, and within the idle time of its last use |
| `AccountSteps.EvictsEarliest` | src/modules/identity/app/commands/authenticate-identity.ts:209-249 | No session a login ends was opened after a usable one it keeps |
| `Logins.UsableAfterLogin` | src/modules/identity/app/commands/authenticate-identity.ts:209-249 | Exactly the newest kept sessions and the new one are usable afterwards |
| `LoginOverlaps.OverlapCap` | src/modules/identity/app/commands/authenticate-identity.ts:202-249 | However logins overlap, a committed login leaves at most max(1, maxActive) usable sessions plus one for each login committed since it listed them, plus one for each idle session woken by an activity write since |
| `LoginOverlaps.NewlyUsable` | src/modules/identity/app/commands/authenticate-identity.ts:209-249 | What becomes usable between two states was opened by a login or woken by an activity write in between |
| `LoginOverlaps.TwoLoginsExceed` | src/modules/identity/app/commands/authenticate-identity.ts:202-208 | Two logins that list the same empty store under a cap of one leave two usable sessions |
| `JsonSoundness.AcceptsExactlyTheGrammar` | src/shared/http/json.ts:40-47 | The parser accepts exactly the RFC 8259 object texts of height at most 8 with unique keys, paired surrogate escapes and finite numbers, and returns the value the grammar gives them |
| `JsonSoundness.OneValuePerText` | src/shared/http/json.ts:40-195 | The grammar gives each text one value |
| `JsonTexts.EverySpellingReads` | src/shared/http/json.ts:81-149 | Every spelling of a string, each unit as itself, as one of the eight short escapes, or as four hexadecimal digits in either case, surrogates in pairs, is read as the string meant |
| `JsonTexts.OtherEscapeRefused` | src/shared/http/json.ts:97-120 | After a backslash any other letter is refused, whatever comes before and after |
| `JsonTexts.BadDigitsRefused` | src/shared/http/json.ts:122-149 | A unit escape with anything but four hexadecimal digits is refused |
| `JsonTexts.LoneSurrogateRefused` | src/shared/http/json.ts:122-149 | An escaped surrogate without its partner is refused |
| `JsonTexts.ControlRefused` | src/shared/http/json.ts:81-96 | An unescaped control character is refused |
| `JsonTexts.LeadingUnit` | src/shared/http/json.ts:20-47 | Space, tab, line feed and carriage return may come first, and nothing else but the brace |
| `JsonTexts.ValueStarts` | src/shared/http/json.ts:49-79 | A digit is a number; a value starts with a digit, minus, quote, bracket, brace, t, f or n, and nothing else |
| `JsonCompleteness.ValueComplete` | src/shared/http/json.ts:49-60 | Every value text of the grammar in a legal place is read to its end |
| `JsonSoundness.ValueSound` | src/shared/http/json.ts:49-60 | Whatever is read as a value is a value text of the grammar |
| `JsonCompleteness.NumberComplete` | src/shared/http/json.ts:70-79 | The longest match of the number pattern is the whole number when what follows may follow a value |
| `JsonSoundness.NumberSound` | src/shared/http/json.ts:70-79 | What the number pattern matches is a number of section 6 |
| `JsonCompleteness.CharsComplete` | src/shared/http/json.ts:81-149 | Every string of section 7 is read to its denotation |
| `JsonSoundness.CharsSound` | src/shared/http/json.ts:81-149 | What is read as a string is one of section 7 |
| `JsonSoundness.FieldsSound` | src/shared/http/json.ts:171-195 | What is read as members has unique decoded keys, also against those read before |
| `JsonPrinter.PrintParses` | src/shared/http/json.ts:40-195 | Parsing inverts a compact printer on every such object |
| `JsonPrinter.ParsedIffPrintable` | src/shared/http/json.ts:40-195 | The values the parser ever returns are exactly the printable objects nested at most eight deep |
| `JsonCursor.DecodeObject` | src/shared/http/json.ts:198-211 | A body is decoded exactly when it is at most 1 MiB of UTF-8 spelling such an object; the result is that object |
| `JsonCursor.Parser.Document` | src/shared/http/json.ts:15-47 | The cursor parser terminates and computes the function the grammar is proved for |
| `JsonCursor.Parser.StringToken` | src/shared/http/json.ts:81-140 | The string loop, escapes included, is that function on the text ahead of the cursor |
| `JsonCursor.Parser.ItemTokens` | src/shared/http/json.ts:151-169 | The array loop |
| `JsonCursor.Parser.FieldTokens` | src/shared/http/json.ts:171-195 | The member loop with its duplicate check |
| `Keyset.SortSorts` | src/shared/pagination/index.ts:149-169 | Sorting keeps exactly the rows and puts distinct keys in (time, id) order |
| `Keyset.PageIs` | src/shared/pagination/index.ts:160-169 | A page is the start, in order, of the rows past the position: nothing skipped, and a short page leaves nothing out |
| `PageOrder.PageShowsEarliest` | src/shared/pagination/index.ts:149-169 | Page rows ascend by time, then by the first code unit in which the ids differ; all lie past the position; whatever lies past it and is left out is later than all of them |
| `PageOrder.PositionIs` | src/shared/pagination/index.ts:118-122 | A position is the ISO time, a bar, and the id |
| `PageOrder.WindowShows` | src/shared/pagination/index.ts:92-113 | A limit outside 1..100 is refused; a page holds at most the limit, and a cursor exactly if more rows were there |
| `Traversal.PositionReads` | src/shared/pagination/index.ts:118-129 | A position reads back as its key |
| `Traversal.ReadIsPosition` | src/shared/pagination/index.ts:124-129 | Whatever reads as a key is the one position of that key |
| `Traversal.StartInvertsCursor` | src/shared/pagination/index.ts:135-147 | A request with an issued cursor starts right after the last row of the page that issued it |
| `Traversal.FollowIsSteps` | src/shared/pagination/index.ts:92-147 | No cursor is refused or misread on the way: the walk over the wire is the walk over keys |
| `Traversal.StableTraversal` | src/shared/pagination/index.ts:92-169 | Following cursors to the end while other rows come and go lists only rows it read, in order, and every row present throughout exactly once |
| `PageOrder.WalkInOrder` | src/shared/pagination/index.ts:92-169 | Whatever comes and goes, a walk lists its rows by ascending time, then by the first code unit in which the ids differ |
| `Traversal.UnchangedTraversal` | src/shared/pagination/index.ts:92-169 | With no changes the pages concatenate to the sorted rows and number max(1, ceil(n / limit)) |
| `Cursor.EncodeRefusesOnlyInvalidParts` | src/shared/pagination/index.ts:14-52 | No cursor is longer than 1036 characters, so encode refuses nothing but invalid parts |
| `PageOrder.CursorIssuedIff` | src/shared/pagination/index.ts:14-52 | A cursor is issued exactly for a scope of 1 to 128 and a position of 1 to 256 UTF-8 bytes without lone surrogates and control characters |
| `Cursor.DecodeInvertsEncode` | src/shared/pagination/index.ts:42-84 | A cursor reads back as its position under its own scope and under no other |
| `Cursor.AcceptedWireIsCanonical` | src/shared/pagination/index.ts:58-70 | Every accepted wire is the one unpadded base64url form of its bytes |
| `Cursor.AcceptedWireMeans` | src/shared/pagination/index.ts:71-80 | It spells an array text holding 1, the scope and the returned position |
| `Cursor.AcceptedIff` | src/shared/pagination/index.ts:53-84 | A wire is read as a position exactly if both parts are valid, it is at most 1036 characters and the canonical form of UTF-8 bytes that spell an array of one, the scope and that position |
| `Base64Url.EncodeDecodes` | src/shared/pagination/index.ts:49-70 | base64url decoding inverts encoding |
| `Utf8.EncodeDecodes` | src/shared/pagination/index.ts:49-73 | Strict UTF-8 decoding inverts encoding on every text without lone surrogates |
| `Utf8.DecodeEncodes` | src/shared/http/json.ts:198-211 | Strict decoding lets nothing but the encoding of a text through: no overlong form, no surrogate, nothing past U+10FFFF |
| `Utf8.MarkDropped` | src/shared/http/json.ts:198-211 | One leading byte order mark is dropped, all else decoded as it stands |
| `V7.StrictlyIncreasing` | src/shared/id/v7.ts:34-80 | Any two IDs of one generator increase in issue order as strings, whatever the clock read |
| `V7.IssuedIdsDecode` | src/shared/id/v7.ts:34-80 | Every ID parses as version 7 and carries the greatest reading accepted so far |
| `V7.LastIsGreatestReading` | src/shared/id/v7.ts:34-60 | The generator keeps the running maximum of the readings of successful calls |
| `V7.FreshMillisecondYields2049` | src/shared/id/v7.ts:50-75 | A fresh millisecond yields at least 2049 IDs |
| `V7.StalledCapacity` | src/shared/id/v7.ts:46-60 | In a stalled millisecond exactly the first 4095 - counter calls succeed |
| `V7.NextAdvances` | src/shared/id/v7.ts:34-80 | A successful call moves (millisecond, counter) strictly up; a failed one changes no state |
| `V7.Generator.NewId` | src/shared/id/v7.ts:34-80 | The method computes that step on its two fields |
| `IdLayout.CallFailsIff` | src/shared/id/v7.ts:34-60 | A call fails exactly for a clock out of range, a spent counter or a throwing random source, in this order |
| `IdLayout.CallIssues` | src/shared/id/v7.ts:46-80 | A later millisecond starts at the low eleven of the first sixteen random bits, otherwise the counter goes up by one; the other eight bytes are the suffix |
| `Ids.EncodeV7Order` | src/shared/id/value.ts:42-56 | A later (millisecond, counter) pair encodes to a greater string whatever the suffixes are |
| `Ids.EncodeV7Decodes` | src/shared/id/value.ts:17-56 | An encoded ID parses to itself as version 7 and gives back its millisecond |
| `Ids.ParseIdempotent` | src/shared/id/value.ts:17-28 | Parsing an accepted ID again returns it unchanged |
| `IdLayout.ParsedIff` | src/shared/id/value.ts:17-28 | Exactly the five dashed groups of hexadecimal digits whose fourth starts with 8, 9, a or b are IDs, kept in lower case |
| `IdLayout.DigitIs` | src/shared/id/value.ts:42-56 | Hexadecimal digits have the value of their place, in either case |
| `IdLayout.FieldsOf` | src/shared/id/value.ts:42-56 | Stamp, version, counter and each random byte are read back from their digits, the variant bits aside |
| `RateLimit.StoresAgree` | src/platform/ratelimit/in-memory-store.ts:58-85 | With a clock that does not go back the one-slot store with eviction and the row-per-window store with clean-up decide every call as an unbounded count would |
| `RateLimit.CompositeInjective` | src/platform/ratelimit/in-memory-store.ts:60-60 | Different buckets never share a stored key, whatever colons the keys contain |
| `RateLimit.SlotsStep` | src/platform/ratelimit/in-memory-store.ts:58-75 | Each call keeps slots and counter in agreement, eviction included |
| `RateLimit.RowsStep` | src/platform/ratelimit/postgres/store.ts:66-98 | Each call keeps rows and counter in agreement, clean-up included |
| `RateLimit.WindowLimit` | src/platform/ratelimit/in-memory-store.ts:77-85 | In each aligned window exactly the first limit calls get through, in the one-slot store, the row-per-window store and the unbounded counter alike |
| `RateLimit.IntervalLimit` | src/platform/ratelimit/in-memory-store.ts:58-85 | No stretch of time as long as the window lets more than twice the limit through, whichever of the three decides |
| `RateLimit.AnswerIs` | src/platform/ratelimit/in-memory-store.ts:77-85 | Whoever decides: allowed if fewer than the limit came before in the window, with what remains, when the next window starts, and how long a refused caller waits |
| `RateLimit.ValidIs` | src/platform/ratelimit/postgres/store.ts:15-48 | Keys of 1 to 256 characters, limits up to a million, windows from a second to a day |
| `RateLimit.SteppedBack` | src/platform/ratelimit/in-memory-store.ts:58-75 | With a clock that steps back the one-slot store lets a call through that the row-per-window store refuses |
| `RateLimit.StoresCountIff` | src/platform/ratelimit/in-memory-store.ts:58-85 | For any clock each store counts a call as the unbounded counter does if and only if no earlier call took the window's slot or row away |
| `RateLimit.SlotLossIs` | src/platform/ratelimit/in-memory-store.ts:58-75 | A slot is taken away exactly by a call of its bucket in another window, or by an eviction once it is long over |
| `RateLimit.RowLossIs` | src/platform/ratelimit/postgres/store.ts:66-98 | A row is deleted exactly by the thousandth call since, once its window started more than a day before |
| `RateLimit.InMemoryRateLimitStore.Consume` | src/platform/ratelimit/in-memory-store.ts:31-86 | Invalid input changes nothing; otherwise the decision and the windows are as specified |
| `RateLimit.PostgresRateLimitStore.Consume` | src/platform/ratelimit/postgres/store.ts:57-114 | The same for rows and operation count |
| `Migrations.LedgerIsLastList` | src/shared/postgres/index.ts:306-372 | Over any run of calls the ledger is the list of the last call that took effect, and each migration in it was adopted as a baseline or run exactly once, in version order |
| `Migrations.DriftRefused` | src/shared/postgres/index.ts:353-361 | A call is refused as drift exactly if the ledger is no prefix of its list, and then nothing changes |
| `MigrationRows.CarriedOutIff` | src/shared/postgres/index.ts:306-417 | A call is carried out exactly if its list ascends, a legacy history to adopt is complete, every recorded version and checksum is the list's, and nothing it runs fails |
| `MigrationRows.TableNameIs` | src/shared/postgres/index.ts:312-312 | The characters of a legacy ledger name |
| `MigrationRows.RowsAre` | src/shared/postgres/index.ts:353-370 | It leaves one row per migration with its version and checksum, keeps the rows there were, and runs the rest in order |
| `MigrationRows.LedgerRowsAre` | src/shared/postgres/index.ts:353-370 | In every state the ledger holds version and checksum of each migration of the last list that took effect |
| `Migrations.EffectOf` | src/shared/postgres/index.ts:347-370 | A call that takes effect leaves exactly its list and runs exactly what was neither recorded nor adopted |
| `Migrations.AdoptedNeverRunsBaselineIff` | src/shared/postgres/index.ts:347-417 | After an adoption no later calls whatever run a baseline if and only if the adopting list reaches baselineThrough (an empty list reaches 0) or its last version is the greatest there is |
| `Migrations.AdoptedRunsBaselineIff` | src/shared/postgres/index.ts:374-417 | Call by call: after an adoption under a non-empty list the calls since ran a baseline if and only if the ledger holds more versions up to baselineThrough than the adopting list; the adopting call itself runs none |
| `Migrations.RoomRunsBaseline` | src/shared/postgres/index.ts:353-370 | A list that falls short of baselineThrough, extended by the next version, runs that version as a migration |
| `Migrations.AdoptedUnderEmptyList` | src/shared/postgres/index.ts:408-416 | Adopting under an empty list drops the old ledger and records nothing, so the next list runs its baselines |
| `Migrations.AdoptedUnderShortList` | src/shared/postgres/index.ts:408-416 | Adopting under a non-empty list that lacks a baseline: the list that brings it runs it |
| `Migrations.Database.Migrate` | src/shared/postgres/index.ts:306-372 | All of a call or nothing, with the right refusal; a lost commit answer still took effect |
| `Migrations.Database.RunPending` | src/shared/postgres/index.ts:353-369 | The loop compares every recorded row and runs exactly the rest, in order |
| `WorkCodec.WorkComesBack` | src/shared/events/index.ts:70-144 | Reading what was written restores every valid work context, for envelopes and for stored audit entries |
| `WorkCodec.WorkInIsCanonical` | src/shared/events/index.ts:70-120 | What an envelope's work reads as is valid, and writing and reading it again changes nothing |
| `WorkCodec.PartsComeBack` | src/modules/audit/infra/postgres/codec.ts:66-146 | Both readers see the same parts in a written work context |
| `WorkTexts.WordsAre` | src/shared/events/index.ts:115-144 | The words on the wire for kinds, references, origins and correlation sources |
| `WorkTexts.ValidIff` | src/shared/provenance/work.ts:65-131 | What makes a work context valid: depths count up from a cause, no work causes or replays itself, and exactly replays say what they replay |
| `WorkTexts.IdentityIs` | src/shared/provenance/actor.ts:19-21 | The characters and length of an identity |
| `WorkTexts.OperationIs` | src/shared/provenance/operation.ts:10-17 | The characters and length of an operation |
| `WorkTexts.AttributionIff` | src/shared/provenance/attribution.ts:21-50 | Acting on behalf of someone takes two named, different actors |
| `WorkTexts.ReadersAgree` | src/modules/audit/infra/postgres/codec.ts:90-146 | What the envelope's reader accepts the store's reader reads the same, unless origin or depth is an explicit null |
| `WorkTexts.UnknownMemberRefused` | src/shared/events/index.ts:70-90 | A work context with an unknown member is refused |
| `Envelopes.DecodeIdempotent` | src/shared/events/index.ts:226-287 | An envelope decodes from its own bytes to itself |
| `Envelopes.SameWorkIsEqual` | src/shared/events/provenance.ts:11-35 | The comparison of works misses nothing that JSON prints, further members of the replay object and their order included |
| `Envelopes.CreatedIff` | src/shared/events/index.ts:192-224 | An envelope is created if and only if type, time and subject kind are well-formed and its text has room |
| `WorkTexts.TypeIs` | src/shared/events/index.ts:246-252 | The event types: a name of 1 to 120 characters and a version of one to six digits |
| `WorkTexts.DecodedMembers` | src/shared/events/index.ts:226-246 | A decoded envelope has its six members, perhaps subject and tenant, and no other |
| `Envelopes.CreatedWork` | src/shared/events/index.ts:192-224 | It carries the work it was created for, with a replay object of run ID and source alone |
| `Envelopes.CreatedEventAcceptedIff` | src/shared/events/provenance.ts:31-42 | An envelope successfully created for a work is accepted for it if and only if the work is no replay, or its stored replay object prints run ID and source, in this order, and nothing else |
| `Envelopes.ForeignWorkRefused` | src/shared/events/provenance.ts:31-42 | And it is accepted for no other work |
| `Envelopes.OtherReplayRefused` | src/shared/provenance/work.ts:107-173 | Validation lets any other replay object through, and its envelope is created as the plain one's is; the check then refuses it |
| `Envelopes.SourceFirstRefused` | src/shared/provenance/work.ts:107-173 | So for an object that names its source first |
| `Envelopes.ExtraMemberRefused` | src/shared/provenance/work.ts:107-173 | So for an object with a member more |

## Left out

- Framework wiring: modules, controllers, interceptors, filters, middleware and the provisioning of streams.
- Connections to PostgreSQL, NATS and SMTP: a transaction is one atomic step, JetStream an abstract at-least-once queue
  that discards nothing by age or size. SQL row locks appear as a set of rows a claim has to leave out.
- Clocks: a statement or call reads its clock once, as a parameter; the dead-letter sweep has a reading of its own, and so
  has each receipt the in-process inbox opens or requeues.
- Randomness and identifiers: `random()` is any value in [0, 1), entropy any bytes or none; lease tokens and new IDs are
  fresh by premise where a result needs it.
- Cryptography: password hashing and verification, token digests and checksums are opaque functions.
- Dates are integral milliseconds or invalid; ISO formatting is an opaque pair of functions that round-trips valid times.
- Envelope bytes: `JSON.stringify` and `JSON.parse` over whole envelopes are an opaque pair of functions that round-trips
  the trees of JavaScript values: every name once, array indices first, numbers that are doubles. A payload is such a tree;
  members that do not serialize are not modelled.
- Replay objects: members are own data properties that print as themselves, or that JSON omits; getters, inherited members
  and a `toJSON` among them are not modelled.
- JSON numbers stay lexemes; whether one is a finite double, or the number 1, is an opaque predicate. Members keep the
  order of the text, while JavaScript moves integer-like names to the front.
- `JSON.parse` in the cursor decoder is the strict parser here: texts only one of them accepts are refused as cursors either
  way.
- String lengths count Dafny characters in keys, names and event types, where JavaScript counts UTF-16 code units; the JSON
  parser and the cursors work on code units.
- InMemoryInbox.Inbox.Accept: the map of maps is one map over pairs, so the iteration order of consumers is not modelled,
  and `backlog`, `unsettled` and `dead` are left out as plain counts.
- AccountStore.Store.CommitSession: commit and publication are one step, so a publication refused while another commit is
  rolled back is not modelled.
- AccountRuns.NoStalePassword: registration, verification, challenge and pruning writers take part as value-level commits
  without the publication failures modelled for sessions and resets; the PostgreSQL writers of accounts are not modelled.
- Workflow.CompletionConverges: the document begins before outcomes arrive; outcomes that arrive earlier are ignored by
  the document and are not part of the claim. The workflow's request command, which submits the job before it begins the
  document, is left out.
- DocumentRuns.ConcurrentCompletion: other commands on the document (archiving, beginning another run) do not interleave
  here; `Documents` states what they do to outcomes.
- JobCommands.Board.TransitionJob: authorization is an opaque answer, and publication a yes or no of the commit.
- Keyset.PageIs: rows of one table have distinct (time, id) keys, as the primary key guarantees.
- Migrations.Database.Migrate: timeouts, the advisory lock and failing bookkeeping statements are left out; a failing
  migration is a set of SQL texts that fail.
- Revoking a credential: a transition of the domain type that no command or writer commits.
- Queries that only list or count: document, job and audit listings, inbox backlog, outbox statistics.
- The environment reader, logger, metrics, health gate, cookies, trace context, organizations, invitations and memberships:
  single-branch checks or plain records.
