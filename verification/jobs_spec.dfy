/** What every operation of the durable-job repository does to the whole repository
    (apps/api/jobs/repository.py). Each public method holds one lock from start to end, so
    each is one atomic step from a repository value to the next. */
module JobOperations {
  import opened Basics
  import opened JobTypes
  import opened Correction

  datatype Repo = Repo(
    jobs: map<Id, Job>,
    order: seq<Id>,
    idempotency: map<(string, string), Id>,
    attempts: map<Id, Attempt>,
    staged: map<Id, map<string, StagedOutput>>,
    publications: map<Id, Publication>,
    current: map<(string, string), Id>,
    impacts: seq<Impact>,
    outbox: seq<Event>,
    receipts: map<(Id, string), Publication>,
    nextId: Id)

  function Empty(): Repo {
    Repo(map[], [], map[], map[], map[], map[], map[], [], [], map[], 0)
  }

  datatype Outcome<+T> = Outcome(repo: Repo, result: Result<T, JobError>)

  /** No dictionary lookup made by the code below can fail. */
  ghost predicate Backed(r: Repo) {
    && (forall id :: id in r.order <==> id in r.jobs)
    && (forall id | id in r.jobs ::
          r.jobs[id].id == id && (r.jobs[id].lease.Some? ==> r.jobs[id].lease.value.attemptId in r.attempts))
    && (forall k | k in r.idempotency :: r.idempotency[k] in r.jobs)
    && (forall k | k in r.current :: r.current[k] in r.publications)
  }

  function Emit(r: Repo, caseId: string, aggregate: Aggregate, body: EventBody, now: Time): Repo {
    r.(outbox := r.outbox + [Event(r.nextId, caseId, aggregate, body, now, None)], nextId := r.nextId + 1)
  }

  function EmitForJob(r: Repo, job: Job, body: EventBody, now: Time): Repo {
    Emit(r, job.spec.caseId, JobAggregate(job.id), body, now)
  }

  function PutJob(r: Repo, job: Job): Repo {
    r.(jobs := r.jobs[job.id := job])
  }

  function Finished(a: Attempt, now: Time, outcome: AttemptOutcome): Attempt {
    a.(finishedAt := Some(now), outcome := Some(outcome))
  }

  function PutAttempt(r: Repo, a: Attempt): Repo {
    r.(attempts := r.attempts[a.id := a])
  }

  function FinishAttempt(r: Repo, id: Id, now: Time, outcome: AttemptOutcome): Repo
    requires id in r.attempts
  {
    r.(attempts := r.attempts[id := Finished(r.attempts[id], now, outcome)])
  }

  function StagedFor(r: Repo, attemptId: Id): map<string, StagedOutput> {
    if attemptId in r.staged then r.staged[attemptId] else map[]
  }

  // ----- submission -----

  function NewJob(id: Id, spec: JobSpec, now: Time): Job {
    Job(id, spec, Queued, 0, now, now, now, None, None, None, None)
  }

  function Submit(r: Repo, spec: JobSpec, now: Time): (o: Outcome<Job>)
    requires Backed(r)
  {
    var key := (spec.caseId, spec.idempotencyKey);
    if !spec.WellFormed() then Outcome(r, Err(InvalidArgument))
    else if key in r.idempotency then
      var existing := r.jobs[r.idempotency[key]];
      if existing.spec != spec then Outcome(r, Err(IdempotencyConflict)) else Outcome(r, Ok(existing))
    else if spec.DeadlinePassed(now) then Outcome(r, Err(DeadlineExceeded))
    else
      var job := NewJob(r.nextId, spec, now);
      var added := r.(jobs := r.jobs[job.id := job], order := r.order + [job.id],
                      idempotency := r.idempotency[key := job.id], nextId := r.nextId + 1);
      Outcome(EmitForJob(added, job, JobSubmitted(spec.kind, spec.inputDigest), now), Ok(job))
  }

  // ----- lease expiry -----

  predicate LeaseLapsed(job: Job, now: Time) {
    job.state.Running? && job.lease.Some? && job.lease.value.leasedUntil <= now
  }

  function ExpiredState(job: Job): JobState {
    if job.cancelRequestedAt.Some? then JobState.Cancelled
    else if job.attemptCount >= job.spec.maxAttempts then JobState.Failed
    else RetryWait
  }

  function ExpiredReason(job: Job): Option<string> {
    if job.cancelRequestedAt.Some? then Some("cancelled after worker lease expired")
    else if job.attemptCount >= job.spec.maxAttempts then Some("worker lease expired and retry budget was exhausted")
    else None
  }

  function ExpiredJob(job: Job, now: Time): Job {
    job.(state := ExpiredState(job), lease := None, availableAt := now, updatedAt := now,
         terminalReason := ExpiredReason(job))
  }

  function ExpireLease(r: Repo, id: Id, now: Time): Repo
    requires Backed(r) && id in r.jobs
  {
    var job := r.jobs[id];
    if !LeaseLapsed(job, now) then r
    else
      var attemptId := job.lease.value.attemptId;
      var closed := PutJob(FinishAttempt(r, attemptId, now, LeaseExpired), ExpiredJob(job, now));
      EmitForJob(closed, job, JobMoved(ExpiredState(job), attemptId, "lease_expired"), now)
  }

  lemma ExpireLeaseBacked(r: Repo, id: Id, now: Time)
    requires Backed(r) && id in r.jobs
    ensures Backed(ExpireLease(r, id, now))
    ensures ExpireLease(r, id, now).jobs.Keys == r.jobs.Keys
  {
  }

  function ExpireAll(r: Repo, ids: seq<Id>, now: Time): (r': Repo)
    requires Backed(r) && forall id | id in ids :: id in r.jobs
    ensures Backed(r') && r'.jobs.Keys == r.jobs.Keys
    decreases |ids|
  {
    if ids == [] then r
    else
      assert ids[0] in ids;
      ExpireLeaseBacked(r, ids[0], now);
      ExpireAll(ExpireLease(r, ids[0], now), ids[1..], now)
  }

  // ----- claiming -----

  predicate ClaimOrder(a: Job, b: Job) {
    if a.availableAt != b.availableAt then a.availableAt < b.availableAt
    else if a.createdAt != b.createdAt then a.createdAt < b.createdAt
    else a.id <= b.id
  }

  predicate Claimable(job: Job, kinds: Option<set<string>>, now: Time) {
    job.state.Waiting() && job.availableAt <= now && (kinds.Some? ==> job.spec.kind in kinds.value)
  }

  function ClaimableIn(r: Repo, ids: seq<Id>, kinds: Option<set<string>>, now: Time): (s: seq<Job>)
    requires forall id | id in ids :: id in r.jobs
    decreases |ids|
  {
    if ids == [] then []
    else
      assert ids[0] in ids;
      (if Claimable(r.jobs[ids[0]], kinds, now) then [r.jobs[ids[0]]] else [])
      + ClaimableIn(r, ids[1..], kinds, now)
  }

  function DeadlineFailed(job: Job, now: Time): Job {
    job.(state := JobState.Failed, terminalReason := Some("job deadline elapsed before claim"), updatedAt := now)
  }

  function LeaseFor(r: Repo, job: Job, worker: string, leaseFor: Time, now: Time): Lease {
    Lease(job.id, r.nextId, job.attemptCount + 1, worker, r.nextId + 1, now + leaseFor)
  }

  function StartAttempt(r: Repo, job: Job, worker: string, leaseFor: Time, now: Time): Repo {
    var lease := LeaseFor(r, job, worker, leaseFor, now);
    var attempt := Attempt(lease.attemptId, job.id, lease.number, worker, lease.token, now, lease.leasedUntil, None,
      None);
    var running := job.(state := Running, attemptCount := lease.number, lease := Some(lease), updatedAt := now);
    var started := PutJob(PutAttempt(r, attempt), running).(nextId := r.nextId + 2);
    EmitForJob(started, job, JobClaimed(lease.attemptId, lease.number, worker), now)
  }

  /** The loop over the eligible jobs: those whose deadline passed fail, the first other
      one is leased. */
  function ClaimFirst(r: Repo, eligible: seq<Job>, worker: string, leaseFor: Time, now: Time): (Repo, Option<Lease>)
    decreases |eligible|
  {
    if eligible == [] then (r, None)
    else if eligible[0].spec.DeadlinePassed(now) then
      ClaimFirst(PutJob(r, DeadlineFailed(eligible[0], now)), eligible[1..], worker, leaseFor, now)
    else
      (StartAttempt(r, eligible[0], worker, leaseFor, now),
       Some(LeaseFor(r, eligible[0], worker, leaseFor, now)))
  }

  function Eligible(r: Repo, kinds: Option<set<string>>, now: Time): seq<Job>
    requires Backed(r)
  {
    SortBy(ClaimableIn(r, r.order, kinds, now), ClaimOrder)
  }

  function Claim(r: Repo, worker: string, leaseFor: Time, kinds: Option<set<string>>, now: Time): Outcome<Option<Lease>>
    requires Backed(r)
  {
    if worker == "" || leaseFor <= 0 then Outcome(r, Err(InvalidArgument))
    else
      var settled := ExpireAll(r, r.order, now);
      var (claimed, lease) := ClaimFirst(settled, Eligible(settled, kinds, now), worker, leaseFor, now);
      Outcome(claimed, Ok(lease))
  }

  // ----- operations of the lease holder -----

  /** `_require_lease` after the expiry: who holds the job, or why nobody may act for it. */
  function LeaseCheck(r: Repo, jobId: Id, token: Id): (c: Result<Lease, JobError>)
    ensures c.Ok? ==> jobId in r.jobs && r.jobs[jobId].lease == Some(c.value) && r.jobs[jobId].state.Running?
                      && c.value.token == token
  {
    if jobId !in r.jobs then Err(UnknownId)
    else
      var job := r.jobs[jobId];
      if !job.state.Running? || job.lease.None? then Err(LeaseConflict)
      else if job.lease.value.token != token then Err(LeaseConflict)
      else Ok(job.lease.value)
  }

  /** The repository after `get_job` and `_expire_lease`, the prelude of every operation on
      one job. An unknown job raises before anything changes. */
  function Settle(r: Repo, jobId: Id, now: Time): (s: Repo)
    requires Backed(r)
    ensures Backed(s) && s.jobs.Keys == r.jobs.Keys
  {
    if jobId in r.jobs then ExpireLeaseBacked(r, jobId, now); ExpireLease(r, jobId, now) else r
  }

  function Heartbeat(r: Repo, jobId: Id, token: Id, leaseFor: Time, now: Time): Outcome<Lease>
    requires Backed(r)
  {
    if leaseFor <= 0 then Outcome(r, Err(InvalidArgument))
    else
      var s := Settle(r, jobId, now);
      match LeaseCheck(s, jobId, token)
      case Err(e) => Outcome(s, Err(e))
      case Ok(lease) =>
        var renewed := lease.(leasedUntil := now + leaseFor);
        var attempt := s.attempts[lease.attemptId].(leasedUntil := renewed.leasedUntil);
        var beating := s.(attempts := s.attempts[lease.attemptId := attempt]);
        Outcome(PutJob(beating, s.jobs[jobId].(lease := Some(renewed), updatedAt := now)), Ok(renewed))
  }

  function RequestCancel(r: Repo, jobId: Id, reason: string, now: Time): Outcome<Job>
    requires Backed(r)
  {
    var s := Settle(r, jobId, now);
    if jobId !in s.jobs then Outcome(s, Err(UnknownId))
    else
      var job := s.jobs[jobId];
      if job.state.Terminal() then Outcome(s, Ok(job))
      else
        var updated :=
          if job.state.Waiting() then
            job.(state := JobState.Cancelled, cancelRequestedAt := Some(now), terminalReason := Some(reason),
              updatedAt := now)
          else
            job.(cancelRequestedAt := Some(job.cancelRequestedAt.GetOr(now)), terminalReason := Some(reason),
              updatedAt := now);
        Outcome(EmitForJob(PutJob(s, updated), job, CancellationRequested(reason), now), Ok(updated))
  }

  function AcknowledgeCancel(r: Repo, jobId: Id, token: Id, now: Time): Outcome<Job>
    requires Backed(r)
  {
    var s := Settle(r, jobId, now);
    match LeaseCheck(s, jobId, token)
    case Err(e) => Outcome(s, Err(e))
    case Ok(lease) =>
      var job := s.jobs[jobId];
      if job.cancelRequestedAt.None? then Outcome(s, Err(InvalidTransition))
      else
        var updated := job.(state := JobState.Cancelled, lease := None, updatedAt := now);
        Outcome(PutJob(FinishAttempt(s, lease.attemptId, now, AttemptCancelled), updated), Ok(updated))
  }

  function StageOutput(r: Repo, jobId: Id, token: Id, name: string, objectUri: string, contentDigest: string,
        metadata: string, now: Time): Outcome<StagedOutput>
    requires Backed(r)
  {
    if name == "" || objectUri == "" || contentDigest == "" then Outcome(r, Err(InvalidArgument))
    else
      var s := Settle(r, jobId, now);
      match LeaseCheck(s, jobId, token)
      case Err(e) => Outcome(s, Err(e))
      case Ok(lease) =>
        var outputs := StagedFor(s, lease.attemptId);
        if s.jobs[jobId].cancelRequestedAt.Some? then Outcome(s, Err(InvalidTransition))
        else if name in outputs then
          var existing := outputs[name];
          if (existing.objectUri, existing.contentDigest, existing.metadata) != (objectUri, contentDigest, metadata)
          then Outcome(s, Err(IdempotencyConflict))
          else Outcome(s, Ok(existing))
        else
          var output := StagedOutput(s.nextId, jobId, lease.attemptId, name, objectUri, contentDigest, metadata, now);
          Outcome(s.(staged := s.staged[lease.attemptId := outputs[name := output]], nextId := s.nextId + 1),
            Ok(output))
  }

  function FailedState(job: Job, retryDelay: Time, now: Time): JobState {
    if job.cancelRequestedAt.Some? then JobState.Cancelled
    else if job.attemptCount < job.spec.maxAttempts
            && (job.spec.deadline.None? || now + retryDelay < job.spec.deadline.value)
    then RetryWait
    else JobState.Failed
  }

  function Fail(r: Repo, jobId: Id, token: Id, reason: string, retryDelay: Time, now: Time): Outcome<Job>
    requires Backed(r)
  {
    if retryDelay < 0 then Outcome(r, Err(InvalidArgument))
    else
      var s := Settle(r, jobId, now);
      match LeaseCheck(s, jobId, token)
      case Err(e) => Outcome(s, Err(e))
      case Ok(lease) =>
        var job := s.jobs[jobId];
        var state := FailedState(job, retryDelay, now);
        var updated := job.(state := state, lease := None, availableAt := now + retryDelay,
                            terminalReason := if state.RetryWait? then None else Some(reason), updatedAt := now);
        var closed := PutJob(FinishAttempt(s, lease.attemptId, now, AttemptFailedTo(state)), updated);
        Outcome(EmitForJob(closed, job, JobMoved(state, lease.attemptId, reason), now), Ok(updated))
  }

  // ----- publication -----

  function NextPublication(r: Repo, job: Job, lease: Lease, resultKey: string, dependencies: set<DependencyRef>,
        now: Time): Publication
    requires Backed(r)
  {
    var key := (job.spec.caseId, resultKey);
    var previous := if key in r.current then Some(r.current[key]) else None;
    var generation := if previous.None? then 1 else r.publications[previous.value].generation + 1;
    Publication(r.nextId, job.spec.caseId, resultKey, generation, job.id, lease.attemptId,
                StagedFor(r, lease.attemptId), dependencies, Current, now, None, None, previous)
  }

  function CommittedJob(job: Job, p: Publication, now: Time): Job {
    job.(state := JobState.Succeeded, lease := None, publicationId := Some(p.id), updatedAt := now)
  }

  function Committed(r: Repo, job: Job, lease: Lease, p: Publication, completionKey: string, now: Time): Repo
    requires lease.attemptId in r.attempts
  {
    var closed := FinishAttempt(r, lease.attemptId, now, AttemptSucceeded);
    var published := closed.(publications := r.publications[p.id := p],
                             current := r.current[(p.caseId, p.resultKey) := p.id],
                             receipts := r.receipts[(job.id, completionKey) := p],
                             nextId := r.nextId + 1);
    PutJob(published, CommittedJob(job, p, now))
  }

  /** The commit of a completed job: everything it writes, at once. */
  function Commit(r: Repo, job: Job, lease: Lease, p: Publication, completionKey: string, now: Time): Repo
    requires lease.attemptId in r.attempts
  {
    Emit(Committed(r, job, lease, p, completionKey, now), p.caseId, PublicationAggregate(p.id),
         PublicationCommitted(job.id, p.resultKey, p.generation), now)
  }

  function CompleteAndPublish(r: Repo, jobId: Id, token: Id, resultKey: string, dependencies: set<DependencyRef>,
        completionKey: string, now: Time): Outcome<Publication>
    requires Backed(r)
  {
    if resultKey == "" || completionKey == "" then Outcome(r, Err(InvalidArgument))
    else if (jobId, completionKey) in r.receipts then Outcome(r, Ok(r.receipts[(jobId, completionKey)]))
    else
      var s := Settle(r, jobId, now);
      match LeaseCheck(s, jobId, token)
      case Err(e) => Outcome(s, Err(e))
      case Ok(lease) =>
        var job := s.jobs[jobId];
        if job.cancelRequestedAt.Some? || StagedFor(s, lease.attemptId) == map[] then Outcome(s, Err(InvalidTransition))
        else
          var p := NextPublication(s, job, lease, resultKey, dependencies, now);
          Outcome(Commit(s, job, lease, p, completionKey, now), Ok(p))
  }

  // ----- corrections and outbox -----

  function ImpactsOf(impacts: seq<Impact>, caseId: string, correctionId: string): (r: seq<Impact>)
    ensures forall i | i in r :: i in impacts && i.caseId == caseId && i.correctionId == correctionId
    decreases |impacts|
  {
    if impacts == [] then []
    else (if impacts[0].caseId == caseId && impacts[0].correctionId == correctionId then [impacts[0]] else [])
         + ImpactsOf(impacts[1..], caseId, correctionId)
  }

  function ImpactedIds(impacts: seq<Impact>): seq<Id> {
    seq(|impacts|, k requires 0 <= k < |impacts| => impacts[k].publicationId)
  }

  function RecordCorrection(r: Repo, caseId: string, correctionId: string, dependency: DependencyRef,
        now: Time): Outcome<seq<Impact>> {
    var existing := ImpactsOf(r.impacts, caseId, correctionId);
    if existing != [] then Outcome(r, Ok(existing))
    else
      var w := Propagate(r.publications, dependency, Context(caseId, correctionId, now), r.nextId);
      var marked := r.(publications := w.publications, impacts := r.impacts + w.impacts, nextId := w.nextId);
      Outcome(Emit(marked, caseId, CorrectionAggregate(correctionId),
        CorrectionRecorded(dependency.kind, dependency.targetId, ImpactedIds(w.impacts)), now),
              Ok(w.impacts))
  }

  predicate HasEvent(outbox: seq<Event>, eventId: Id) {
    exists k | 0 <= k < |outbox| :: outbox[k].id == eventId
  }

  function FirstEvent(outbox: seq<Event>, eventId: Id): (k: nat)
    requires HasEvent(outbox, eventId)
    ensures k < |outbox| && outbox[k].id == eventId
    ensures forall j | 0 <= j < k :: outbox[j].id != eventId
  {
    if outbox[0].id == eventId then 0
    else
      assert HasEvent(outbox[1..], eventId) by {
        var k :| 0 <= k < |outbox| && outbox[k].id == eventId;
        assert outbox[1..][k - 1].id == eventId;
      }
      1 + FirstEvent(outbox[1..], eventId)
  }

  function Dispatched(e: Event, now: Time): Event {
    if e.dispatchedAt.Some? then e else e.(dispatchedAt := Some(now))
  }

  function MarkDispatched(r: Repo, eventId: Id, now: Time): Outcome<Event> {
    if !HasEvent(r.outbox, eventId) then Outcome(r, Err(UnknownId))
    else
      var k := FirstEvent(r.outbox, eventId);
      var e := Dispatched(r.outbox[k], now);
      Outcome(r.(outbox := r.outbox[k := e]), Ok(e))
  }

  // ----- every step -----

  datatype Op =
    | DoSubmit(spec: JobSpec)
    | DoClaim(worker: string, leaseFor: Time, kinds: Option<set<string>>)
    | DoHeartbeat(jobId: Id, token: Id, leaseFor: Time)
    | DoRequestCancel(jobId: Id, reason: string)
    | DoAcknowledgeCancel(jobId: Id, token: Id)
    | DoStage(jobId: Id, token: Id, name: string, objectUri: string, contentDigest: string, metadata: string)
    | DoFail(jobId: Id, token: Id, reason: string, retryDelay: Time)
    | DoComplete(jobId: Id, token: Id, resultKey: string, dependencies: set<DependencyRef>, completionKey: string)
    | DoCorrect(caseId: string, correctionId: string, dependency: DependencyRef)
    | DoDispatch(eventId: Id)

  /** A call with its own clock reading; clocks need not be monotone. */
  datatype Call = Call(op: Op, now: Time)

  function Step(r: Repo, c: Call): Repo
    requires Backed(r)
  {
    match c.op
    case DoSubmit(spec) => Submit(r, spec, c.now).repo
    case DoClaim(worker, leaseFor, kinds) => Claim(r, worker, leaseFor, kinds, c.now).repo
    case DoHeartbeat(id, token, leaseFor) => Heartbeat(r, id, token, leaseFor, c.now).repo
    case DoRequestCancel(id, reason) => RequestCancel(r, id, reason, c.now).repo
    case DoAcknowledgeCancel(id, token) => AcknowledgeCancel(r, id, token, c.now).repo
    case DoStage(id, token, name, uri, digest, metadata) =>
      StageOutput(r, id, token, name, uri, digest, metadata, c.now).repo
    case DoFail(id, token, reason, delay) => Fail(r, id, token, reason, delay, c.now).repo
    case DoComplete(id, token, key, dependencies, completion) =>
      CompleteAndPublish(r, id, token, key, dependencies, completion, c.now).repo
    case DoCorrect(caseId, correctionId, dependency) =>
      RecordCorrection(r, caseId, correctionId, dependency, c.now).repo
    case DoDispatch(eventId) => MarkDispatched(r, eventId, c.now).repo
  }
}
