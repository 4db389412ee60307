/** Immutable records of the durable-job contract (apps/api/jobs/models.py).

    Identifiers come from an id factory that never repeats itself; here they are naturals
    drawn from a counter. Instants and durations are integers. A tuple that the program
    sorts and removes duplicates from (dependencies, staged outputs by name) is kept as
    the set or map that determines it. */
module JobTypes {
  import opened Basics

  type Id = nat
  type Time = int

  datatype JobState = Queued | Running | RetryWait | Succeeded | Failed | Cancelled {
    predicate Terminal() { Succeeded? || Failed? || Cancelled? }

    predicate Waiting() { Queued? || RetryWait? }
  }

  datatype JobSpec = JobSpec(
    caseId: string,
    kind: string,
    idempotencyKey: string,
    inputDigest: string,
    parameters: string,
    maxAttempts: int,
    deadline: Option<Time>)
  {
    /** What the constructor of a spec insists on. */
    predicate WellFormed() {
      caseId != "" && kind != "" && idempotencyKey != "" && inputDigest != "" && maxAttempts >= 1
    }

    predicate DeadlinePassed(now: Time) {
      deadline.Some? && deadline.value <= now
    }
  }

  datatype Lease = Lease(
    jobId: Id,
    attemptId: Id,
    number: nat,
    worker: string,
    token: Id,
    leasedUntil: Time)

  datatype Job = Job(
    id: Id,
    spec: JobSpec,
    state: JobState,
    attemptCount: nat,
    availableAt: Time,
    createdAt: Time,
    updatedAt: Time,
    cancelRequestedAt: Option<Time>,
    terminalReason: Option<string>,
    lease: Option<Lease>,
    publicationId: Option<Id>)

  datatype AttemptOutcome = LeaseExpired | AttemptCancelled | AttemptSucceeded | AttemptFailedTo(state: JobState)

  datatype Attempt = Attempt(
    id: Id,
    jobId: Id,
    number: nat,
    worker: string,
    token: Id,
    startedAt: Time,
    leasedUntil: Time,
    finishedAt: Option<Time>,
    outcome: Option<AttemptOutcome>)

  datatype StagedOutput = StagedOutput(
    id: Id,
    jobId: Id,
    attemptId: Id,
    name: string,
    objectUri: string,
    contentDigest: string,
    metadata: string,
    stagedAt: Time)

  datatype DependencyKind =
    | AssertionRevisionKind
    | ProjectionKind
    | AnalysisVersionKind
    | CommunityRunKind
    | LineageEventKind
    | ReportVersionKind
    | PublicationKind

  datatype DependencyRef = DependencyRef(kind: DependencyKind, targetId: string, targetVersion: string)

  datatype PublicationState = Current | Stale

  datatype Publication = Publication(
    id: Id,
    caseId: string,
    resultKey: string,
    generation: nat,
    jobId: Id,
    attemptId: Id,
    outputs: map<string, StagedOutput>,
    dependencies: set<DependencyRef>,
    state: PublicationState,
    publishedAt: Time,
    staleAt: Option<Time>,
    staleReason: Option<string>,
    supersedes: Option<Id>)

  /** Everything about a publication except whether it went stale. */
  function Identity(p: Publication): Publication {
    p.(state := Current, staleAt := None, staleReason := None)
  }

  datatype Impact = Impact(
    id: Id,
    caseId: string,
    correctionId: string,
    dependency: DependencyRef,
    publicationId: Id,
    depth: nat,
    recordedAt: Time)

  datatype EventBody =
    | JobSubmitted(kind: string, inputDigest: string)
    | JobMoved(state: JobState, attemptId: Id, reason: string)
    | JobClaimed(attemptId: Id, number: nat, worker: string)
    | CancellationRequested(reason: string)
    | PublicationCommitted(jobId: Id, resultKey: string, generation: nat)
    | CorrectionRecorded(dependencyKind: DependencyKind, dependencyId: string, impacted: seq<Id>)

  datatype Aggregate = JobAggregate(id: Id) | PublicationAggregate(id: Id) | CorrectionAggregate(key: string)

  datatype Event = Event(
    id: Id,
    caseId: string,
    aggregate: Aggregate,
    body: EventBody,
    occurredAt: Time,
    dispatchedAt: Option<Time>)

  datatype JobError =
    | InvalidArgument
    | UnknownId
    | IdempotencyConflict
    | InvalidTransition
    | LeaseConflict
    | DeadlineExceeded

  /** The reference by which a later publication depends on this one. */
  function PublicationRef(p: Publication): DependencyRef {
    DependencyRef(PublicationKind, Decimal(p.id), Decimal(p.generation))
  }

  /** A publication reference names one publication and one generation. */
  lemma PublicationRefInjective(p: Publication, q: Publication)
    requires PublicationRef(p) == PublicationRef(q)
    ensures p.id == q.id && p.generation == q.generation
  {
    DecimalInjective(p.id, q.id);
    DecimalInjective(p.generation, q.generation);
  }
}
