/** The in-memory durable-job repository, updating its dictionaries and lists in place
    (apps/api/jobs/repository.py). Every method leaves exactly the repository value that its
    operation in JobOperations describes, and keeps the invariant. */
module JobRepository {
  import opened Basics
  import opened JobTypes
  import opened Correction
  import opened JobOperations
  import opened JobInvariant
  import opened JobSteps

  class InMemoryJobRepository {
    var jobs: map<Id, Job>
    var order: seq<Id>
    var idempotency: map<(string, string), Id>
    var attempts: map<Id, Attempt>
    var staged: map<Id, map<string, StagedOutput>>
    var publications: map<Id, Publication>
    var current: map<(string, string), Id>
    var impacts: seq<Impact>
    var outbox: seq<Event>
    var receipts: map<(Id, string), Publication>
    var nextId: Id

    ghost function State(): Repo
      reads this
    {
      Repo(jobs, order, idempotency, attempts, staged, publications, current, impacts, outbox, receipts, nextId)
    }

    ghost predicate Valid()
      reads this
    {
      Inv(State()) && Backed(State())
    }

    constructor ()
      ensures Valid() && State() == Empty()
    {
      jobs, order, idempotency, attempts, staged := map[], [], map[], map[], map[];
      publications, current, impacts, outbox, receipts, nextId := map[], map[], [], [], map[], 0;
      new;
      EmptyInv();
    }

    method Emit(caseId: string, aggregate: Aggregate, body: EventBody, now: Time)
      modifies this`outbox, this`nextId
      ensures State() == JobOperations.Emit(old(State()), caseId, aggregate, body, now)
    {
      outbox := outbox + [Event(nextId, caseId, aggregate, body, now, None)];
      nextId := nextId + 1;
    }

    method Submit(spec: JobSpec, now: Time) returns (result: Result<Job, JobError>)
      requires Valid()
      modifies this
      ensures Valid()
      ensures Outcome(State(), result) == JobOperations.Submit(old(State()), spec, now)
    {
      hide Inv, Grows, Backed, LeaseBacked, JobOk;
      SubmitSafe(State(), spec, now);
      assert forall k | k in idempotency :: idempotency[k] in jobs by { IdempotencyKnown(State()); }
      if !spec.WellFormed() { return Err(InvalidArgument); }
      var key := (spec.caseId, spec.idempotencyKey);
      if key in idempotency {
        var existing := jobs[idempotency[key]];
        if existing.spec != spec { return Err(IdempotencyConflict); }
        return Ok(existing);
      }
      if spec.deadline.Some? && spec.deadline.value <= now { return Err(DeadlineExceeded); }
      var job := Enqueue(spec, now);
      InvBacked(State());
      return Ok(job);
    }

    method Enqueue(spec: JobSpec, now: Time) returns (job: Job)
      modifies this
      ensures job == NewJob(old(nextId), spec, now)
      ensures State() == EmitForJob(old(State()).(jobs := old(jobs)[job.id := job], order := old(order) + [job.id],
                                                  idempotency := old(idempotency)[KeyOfSpec(spec) := job.id],
                                                  nextId := old(nextId) + 1),
                                    job, JobSubmitted(spec.kind, spec.inputDigest), now)
    {
      job := Job(nextId, spec, Queued, 0, now, now, now, None, None, None, None);
      nextId := nextId + 1;
      jobs := jobs[job.id := job];
      order := order + [job.id];
      idempotency := idempotency[(spec.caseId, spec.idempotencyKey) := job.id];
      Emit(spec.caseId, JobAggregate(job.id), JobSubmitted(spec.kind, spec.inputDigest), now);
    }

    method ExpireLease(id: Id, now: Time)
      requires Valid() && id in jobs
      modifies this
      ensures Valid() && order == old(order) && jobs.Keys == old(jobs.Keys)
      ensures State() == JobOperations.ExpireLease(old(State()), id, now)
    {
      hide Inv, Grows, Backed, LeaseBacked, JobOk;
      ExpireLeaseSafe(State(), id, now);
      InvJob(State(), id);
      assert jobs[id].lease.Some? ==> jobs[id].lease.value.attemptId in attempts by {
        if jobs[id].lease.Some? { LeaseKnown(State(), id); }
      }
      ExpireLeaseBacked(State(), id, now);
      var job := jobs[id];
      hide ExpiredState, ExpiredReason;
      if !job.state.Running? || job.lease.None? { return; }
      var lease := job.lease.value;
      if lease.leasedUntil > now { return; }
      CloseLapsed(job, lease, now);
    }

    method CloseLapsed(job: Job, lease: Lease, now: Time)
      requires lease.attemptId in attempts
      modifies this
      ensures State()
          == EmitForJob(PutJob(FinishAttempt(old(State()), lease.attemptId, now, LeaseExpired), ExpiredJob(job, now)),
                                    job, JobMoved(ExpiredState(job), lease.attemptId, "lease_expired"), now)
    {
      attempts := attempts[lease.attemptId := attempts[lease.attemptId].(finishedAt := Some(now),
        outcome := Some(LeaseExpired))];
      var state, reason := RetryWait, None;
      if job.cancelRequestedAt.Some? {
        state, reason := JobState.Cancelled, Some("cancelled after worker lease expired");
      } else if job.attemptCount >= job.spec.maxAttempts {
        state, reason := JobState.Failed, Some("worker lease expired and retry budget was exhausted");
      }
      jobs := jobs[job.id := job.(state := state, lease := None, availableAt := now, updatedAt := now,
        terminalReason := reason)];
      Emit(job.spec.caseId, JobAggregate(job.id), JobMoved(state, lease.attemptId, "lease_expired"), now);
    }

    method Claim(worker: string, leaseFor: Time, kinds: Option<set<string>>,
          now: Time)
      returns (result: Result<Option<Lease>, JobError>)
      requires Valid()
      modifies this
      ensures Valid()
      ensures Outcome(State(), result) == JobOperations.Claim(old(State()), worker, leaseFor, kinds, now)
    {
      if worker == "" || leaseFor <= 0 { return Err(InvalidArgument); }
      hide Inv, Backed, ExpireAll, ClaimFirst, WaitingList;
      OrderKnown(State());
      ExpireEvery(now);
      EligibleExact(State(), kinds, now);
      var eligible := SortBy(ClaimableIn(Repo(jobs, order, idempotency, attempts, staged, publications, current,
        impacts, outbox, receipts, nextId), order, kinds, now), ClaimOrder);
      var lease := LeaseFirst(eligible, worker, leaseFor, now);
      return Ok(lease);
    }

    /** The first loop of `claim`: every lapsed lease is given up. */
    method ExpireEvery(now: Time)
      requires Valid() && forall id | id in order :: id in jobs
      modifies this
      ensures Valid()
      ensures State() == ExpireAll(old(State()), old(order), now)
    {
      hide Inv, Backed, JobOperations.ExpireLease;
      ghost var s := State();
      var i := 0;
      while i < |order|
        invariant 0 <= i <= |order| && order == s.order
        invariant Valid()
        invariant forall id | id in order :: id in jobs
        invariant ExpireAll(State(), order[i..], now) == ExpireAll(s, s.order, now)
      {
        assert order[i] in order;
        ExpireLease(order[i], now);
        i := i + 1;
      }
    }

    /** The second loop of `claim`: over the eligible jobs, in order. */
    method LeaseFirst(eligible: seq<Job>, worker: string, leaseFor: Time, now: Time) returns (lease: Option<Lease>)
      requires Valid() && WaitingList(State(), eligible)
      modifies this
      ensures Valid()
      ensures (State(), lease) == ClaimFirst(old(State()), eligible, worker, leaseFor, now)
    {
      hide Inv, Grows, Backed, LeaseBacked, JobOk, WaitingList, StartAttempt;
      ghost var s := State();
      var i := 0;
      while i < |eligible|
        invariant 0 <= i <= |eligible|
        invariant Valid() && WaitingList(State(), eligible[i..])
        invariant ClaimFirst(State(), eligible[i..], worker, leaseFor, now)
            == ClaimFirst(s, eligible, worker, leaseFor, now)
      {
        var job := eligible[i];
        WaitingRest(State(), eligible[i..], now);
        if job.spec.deadline.Some? && job.spec.deadline.value <= now {
          DeadlineFailSafe(State(), job, now);
          jobs := jobs[job.id := job.(state := JobState.Failed,
            terminalReason := Some("job deadline elapsed before claim"), updatedAt := now)];
          InvBacked(State());
          i := i + 1;
        } else {
          var l := Start(job, worker, leaseFor, now);
          return Some(l);
        }
      }
      return None;
    }

    method Start(job: Job, worker: string, leaseFor: Time, now: Time) returns (lease: Lease)
      requires Valid() && job.id in jobs && jobs[job.id] == job && job.state.Waiting() && !job.spec.DeadlinePassed(now)
      modifies this
      ensures Valid()
      ensures State() == StartAttempt(old(State()), job, worker, leaseFor, now)
      ensures lease == LeaseFor(old(State()), job, worker, leaseFor, now)
    {
      hide Inv, Grows, Backed, LeaseBacked, JobOk;
      StartAttemptSafe(State(), job, worker, leaseFor, now);
      InvBacked(StartAttempt(State(), job, worker, leaseFor, now));
      var number, attemptId, token := job.attemptCount + 1, nextId, nextId + 1;
      nextId := nextId + 2;
      lease := Lease(job.id, attemptId, number, worker, token, now + leaseFor);
      attempts := attempts[attemptId := Attempt(attemptId, job.id, number, worker, token, now, lease.leasedUntil, None,
        None)];
      jobs := jobs[job.id := job.(state := Running, attemptCount := number, lease := Some(lease), updatedAt := now)];
      Emit(job.spec.caseId, JobAggregate(job.id), JobClaimed(attemptId, number, worker), now);
    }

    /** `_require_lease`: expire first, then check who holds the job. */
    method RequireLease(jobId: Id, token: Id, now: Time) returns (check: Result<Lease, JobError>)
      requires Valid()
      modifies this
      ensures Valid()
      ensures State() == Settle(old(State()), jobId, now)
      ensures check == LeaseCheck(State(), jobId, token)
      ensures check.Ok? ==> check.value.attemptId in attempts && jobs[jobId].id == jobId
    {
      hide Inv, Grows, Backed, LeaseBacked, JobOk;
      if jobId !in jobs { return Err(UnknownId); }
      ExpireLease(jobId, now);
      InvJob(State(), jobId);
      assert jobs[jobId].lease.Some? ==> jobs[jobId].lease.value.attemptId in attempts by {
        if jobs[jobId].lease.Some? { LeaseKnown(State(), jobId); }
      }
      var job := jobs[jobId];
      if !job.state.Running? || job.lease.None? { return Err(LeaseConflict); }
      if job.lease.value.token != token { return Err(LeaseConflict); }
      return Ok(job.lease.value);
    }

    method Heartbeat(jobId: Id, token: Id, leaseFor: Time, now: Time) returns (result: Result<Lease, JobError>)
      requires Valid()
      modifies this
      ensures Valid()
      ensures Outcome(State(), result) == JobOperations.Heartbeat(old(State()), jobId, token, leaseFor, now)
    {
      hide Inv, Grows, Backed, LeaseBacked, JobOk, Settle, LeaseCheck;
      HeartbeatSafe(State(), jobId, token, leaseFor, now);
      InvBacked(JobOperations.Heartbeat(State(), jobId, token, leaseFor, now).repo);
      if leaseFor <= 0 { return Err(InvalidArgument); }
      var check := RequireLease(jobId, token, now);
      if check.Err? { return Err(check.error); }
      var lease := check.value;
      var renewed := lease.(leasedUntil := now + leaseFor);
      attempts := attempts[lease.attemptId := attempts[lease.attemptId].(leasedUntil := renewed.leasedUntil)];
      jobs := jobs[jobId := jobs[jobId].(lease := Some(renewed), updatedAt := now)];
      return Ok(renewed);
    }

    method RequestCancel(jobId: Id, reason: string, now: Time) returns (result: Result<Job, JobError>)
      requires Valid()
      modifies this
      ensures Valid()
      ensures Outcome(State(), result) == JobOperations.RequestCancel(old(State()), jobId, reason, now)
    {
      hide Inv, Grows, Backed, LeaseBacked, JobOk, JobOperations.ExpireLease;
      RequestCancelSafe(State(), jobId, reason, now);
      InvBacked(JobOperations.RequestCancel(State(), jobId, reason, now).repo);
      if jobId !in jobs { return Err(UnknownId); }
      ExpireLease(jobId, now);
      InvJob(State(), jobId);
      var job := jobs[jobId];
      if job.state.Succeeded? || job.state.Failed? || job.state.Cancelled? { return Ok(job); }
      var updated;
      if job.state.Queued? || job.state.RetryWait? {
        updated := job.(state := JobState.Cancelled, cancelRequestedAt := Some(now), terminalReason := Some(reason),
          updatedAt := now);
      } else {
        updated := job.(cancelRequestedAt := Some(job.cancelRequestedAt.GetOr(now)), terminalReason := Some(reason),
          updatedAt := now);
      }
      jobs := jobs[jobId := updated];
      Emit(job.spec.caseId, JobAggregate(jobId), CancellationRequested(reason), now);
      return Ok(updated);
    }

    method AcknowledgeCancel(jobId: Id, token: Id, now: Time) returns (result: Result<Job, JobError>)
      requires Valid()
      modifies this
      ensures Valid()
      ensures Outcome(State(), result) == JobOperations.AcknowledgeCancel(old(State()), jobId, token, now)
    {
      hide Inv, Grows, Backed, LeaseBacked, JobOk, Settle, LeaseCheck;
      AcknowledgeCancelSafe(State(), jobId, token, now);
      InvBacked(JobOperations.AcknowledgeCancel(State(), jobId, token, now).repo);
      var check := RequireLease(jobId, token, now);
      if check.Err? { return Err(check.error); }
      var job, lease := jobs[jobId], check.value;
      if job.cancelRequestedAt.None? { return Err(InvalidTransition); }
      attempts := attempts[lease.attemptId := attempts[lease.attemptId].(finishedAt := Some(now),
        outcome := Some(AttemptCancelled))];
      var updated := job.(state := JobState.Cancelled, lease := None, updatedAt := now);
      jobs := jobs[jobId := updated];
      return Ok(updated);
    }

    method StageOutput(jobId: Id, token: Id, name: string, objectUri: string, contentDigest: string, metadata: string,
          now: Time)
      returns (result: Result<StagedOutput, JobError>)
      requires Valid()
      modifies this
      ensures Valid()
      ensures Outcome(State(), result)
          == JobOperations.StageOutput(old(State()), jobId, token, name, objectUri, contentDigest, metadata, now)
    {
      hide Inv, Grows, Backed, LeaseBacked, JobOk, Settle, LeaseCheck;
      StageSafe(State(), jobId, token, name, objectUri, contentDigest, metadata, now);
      InvBacked(JobOperations.StageOutput(State(), jobId, token, name, objectUri, contentDigest, metadata, now).repo);
      if name == "" || objectUri == "" || contentDigest == "" { return Err(InvalidArgument); }
      var check := RequireLease(jobId, token, now);
      if check.Err? { return Err(check.error); }
      var attemptId := check.value.attemptId;
      if jobs[jobId].cancelRequestedAt.Some? { return Err(InvalidTransition); }
      var outputs := if attemptId in staged then staged[attemptId] else map[];
      if name in outputs {
        var existing := outputs[name];
        if existing.objectUri != objectUri || existing.contentDigest != contentDigest || existing.metadata != metadata {
          return Err(IdempotencyConflict);
        }
        return Ok(existing);
      }
      var output := StagedOutput(nextId, jobId, attemptId, name, objectUri, contentDigest, metadata, now);
      nextId := nextId + 1;
      staged := staged[attemptId := outputs[name := output]];
      return Ok(output);
    }

    method Fail(jobId: Id, token: Id, reason: string, retryDelay: Time,
          now: Time)
      returns (result: Result<Job, JobError>)
      requires Valid()
      modifies this
      ensures Valid()
      ensures Outcome(State(), result) == JobOperations.Fail(old(State()), jobId, token, reason, retryDelay, now)
    {
      hide Inv, Grows, Backed, LeaseBacked, JobOk, Settle, LeaseCheck;
      FailSafe(State(), jobId, token, reason, retryDelay, now);
      InvBacked(JobOperations.Fail(State(), jobId, token, reason, retryDelay, now).repo);
      if retryDelay < 0 { return Err(InvalidArgument); }
      var check := RequireLease(jobId, token, now);
      if check.Err? { return Err(check.error); }
      var job, lease := jobs[jobId], check.value;
      var state;
      if job.cancelRequestedAt.Some? {
        state := JobState.Cancelled;
      } else if job.attemptCount < job.spec.maxAttempts
        && (job.spec.deadline.None? || now + retryDelay < job.spec.deadline.value) {
        state := RetryWait;
      } else {
        state := JobState.Failed;
      }
      attempts := attempts[lease.attemptId := attempts[lease.attemptId].(finishedAt := Some(now),
        outcome := Some(AttemptFailedTo(state)))];
      var updated := job.(state := state, lease := None, availableAt := now + retryDelay,
                          terminalReason := if state.RetryWait? then None else Some(reason), updatedAt := now);
      jobs := jobs[jobId := updated];
      Emit(job.spec.caseId, JobAggregate(jobId), JobMoved(state, lease.attemptId, reason), now);
      return Ok(updated);
    }

    method CompleteAndPublish(jobId: Id, token: Id, resultKey: string, dependencies: set<DependencyRef>,
          completionKey: string, now: Time)
      returns (result: Result<Publication, JobError>)
      requires Valid()
      modifies this
      ensures Valid()
      ensures Outcome(State(), result)
           == JobOperations.CompleteAndPublish(old(State()), jobId, token, resultKey, dependencies, completionKey, now)
    {
      hide Inv, Grows, Backed, LeaseBacked, JobOk, Settle, LeaseCheck, Commit;
      CompleteSafe(State(), jobId, token, resultKey, dependencies, completionKey, now);
      InvBacked(JobOperations.CompleteAndPublish(State(), jobId, token, resultKey, dependencies, completionKey,
        now).repo);
      if resultKey == "" || completionKey == "" { return Err(InvalidArgument); }
      if (jobId, completionKey) in receipts { return Ok(receipts[(jobId, completionKey)]); }
      var check := RequireLease(jobId, token, now);
      if check.Err? { return Err(check.error); }
      var job, lease := jobs[jobId], check.value;
      if job.cancelRequestedAt.Some? { return Err(InvalidTransition); }
      var p := BuildPublication(job, lease, resultKey, dependencies, now);
      if p.outputs == map[] { return Err(InvalidTransition); }
      CommitInPlace(job, lease, p, completionKey, now);
      return Ok(p);
    }

    /** The publication that would be next for the case and key. */
    method BuildPublication(job: Job, lease: Lease, resultKey: string, dependencies: set<DependencyRef>,
          now: Time)
      returns (p: Publication)
      requires Valid()
      ensures p == NextPublication(State(), job, lease, resultKey, dependencies, now)
    {
      hide Inv;
      var outputs := if lease.attemptId in staged then staged[lease.attemptId] else map[];
      var key := (job.spec.caseId, resultKey);
      var previous, generation := None, 1;
      if key in current {
        previous, generation := Some(current[key]), publications[current[key]].generation + 1;
      }
      p := Publication(nextId, job.spec.caseId, resultKey, generation, job.id, lease.attemptId, outputs, dependencies,
                       Current, now, None, None, previous);
    }

    /** The atomic part of a completion. */
    method CommitInPlace(job: Job, lease: Lease, p: Publication, completionKey: string, now: Time)
      requires lease.attemptId in attempts
      modifies this
      ensures State() == Commit(old(State()), job, lease, p, completionKey, now)
    {
      hide JobOperations.Emit, Committed;
      WriteCompletion(job, lease, p, completionKey, now);
      Emit(p.caseId, PublicationAggregate(p.id), PublicationCommitted(job.id, p.resultKey, p.generation), now);
    }

    method WriteCompletion(job: Job, lease: Lease, p: Publication, completionKey: string, now: Time)
      requires lease.attemptId in attempts
      modifies this
      ensures State() == Committed(old(State()), job, lease, p, completionKey, now)
    {
      nextId := nextId + 1;
      publications := publications[p.id := p];
      current := current[(p.caseId, p.resultKey) := p.id];
      attempts := attempts[lease.attemptId := Finished(attempts[lease.attemptId], now, AttemptSucceeded)];
      jobs := jobs[job.id := CommittedJob(job, p, now)];
      receipts := receipts[(job.id, completionKey) := p];
    }

    method RecordCorrection(caseId: string, correctionId: string, dependency: DependencyRef, now: Time)
      returns (result: Result<seq<Impact>, JobError>)
      requires Valid()
      modifies this
      ensures Valid()
      ensures Outcome(State(), result)
          == JobOperations.RecordCorrection(old(State()), caseId, correctionId, dependency, now)
    {
      hide Inv, Grows, Backed, Propagate, Indexes;
      CorrectionSafe(State(), caseId, correctionId, dependency, now);
      InvBacked(JobOperations.RecordCorrection(State(), caseId, correctionId, dependency, now).repo);
      var existing := ImpactsOf(impacts, caseId, correctionId);
      if existing != [] { return Ok(existing); }
      var ctx := Context(caseId, correctionId, now);
      var reverse := ReverseIndex(publications, caseId);
      var recorded := PropagateInPlace(reverse, dependency, ctx);
      Emit(caseId, CorrectionAggregate(correctionId),
        CorrectionRecorded(dependency.kind, dependency.targetId, ImpactedIds(recorded)), now);
      return Ok(recorded);
    }

    /** The breadth-first loop over a mutable deque and seen set. */
    method PropagateInPlace(reverse: map<DependencyRef, set<Id>>, dependency: DependencyRef,
          ctx: Context)
      returns (recorded: seq<Impact>)
      requires Indexes(reverse, publications, ctx.caseId)
      modifies this`publications, this`impacts, this`nextId
      ensures var w := Propagate(old(publications), dependency, ctx, old(nextId));
              && recorded == w.impacts && publications == w.publications && nextId == w.nextId
              && impacts == old(impacts) + w.impacts
    {
      ghost var graph := publications;
      var queue := [Entry(dependency, 0)];
      var seen: set<Id> := {};
      recorded := [];
      ghost var prior := impacts;
      hide Dependents, SortedIds, VisitAll, Drain, Pop, Indexes;
      while queue != []
        invariant publications.Keys == graph.Keys && seen <= graph.Keys
        invariant impacts == prior + recorded
        invariant Drain(Walk(queue, seen, publications, recorded, nextId), graph, ctx)
               == Propagate(graph, dependency, ctx, old(nextId))
        decreases |queue| + |graph.Keys| - |seen|
      {
        ghost var before := Walk(queue, seen, publications, recorded, nextId);
        var e := queue[0];
        var ids := SortedIds(if e.changed in reverse then reverse[e.changed] else {});
        PopUnfolds(before, reverse, graph, ctx);
        queue, seen, recorded := VisitInPlace(queue[1..], seen, recorded, ids, e, ctx, prior);
      }
      DrainEnds(Walk(queue, seen, publications, recorded, nextId), graph, ctx);
    }

    /** The inner loop: the publications that depend on the entry just taken. */
    method VisitInPlace(queue0: seq<Entry>, seen0: set<Id>, recorded0: seq<Impact>, ids: seq<Id>, e: Entry,
          ctx: Context, ghost prior: seq<Impact>)
      returns (queue: seq<Entry>, seen: set<Id>, recorded: seq<Impact>)
      requires forall id | id in ids :: id in publications
      requires impacts == prior + recorded0
      modifies this`publications, this`impacts, this`nextId
      ensures Walk(queue, seen, publications, recorded, nextId)
           == VisitAll(Walk(queue0, seen0, old(publications), recorded0, old(nextId)), ids, e, ctx)
      ensures impacts == prior + recorded
    {
      ghost var graph := publications;
      queue, seen, recorded := queue0, seen0, recorded0;
      var j := 0;
      hide VisitOne;
      while j < |ids|
        invariant 0 <= j <= |ids|
        invariant publications.Keys == graph.Keys
        invariant impacts == prior + recorded
        invariant forall id | id in ids[j..] :: id in graph
        invariant VisitAll(Walk(queue, seen, publications, recorded, nextId), ids[j..], e, ctx)
               == VisitAll(Walk(queue0, seen0, graph, recorded0, old(nextId)), ids, e, ctx)
      {
        ghost var rest := ids[j..];
        assert rest[0] == ids[j] && rest[1..] == ids[j + 1..] && rest[0] in rest;
        queue, seen, recorded := RecordInPlace(queue, seen, recorded, ids[j], e, ctx, prior);
        j := j + 1;
      }
    }

    method RecordInPlace(queue0: seq<Entry>, seen0: set<Id>, recorded0: seq<Impact>, id: Id, e: Entry, ctx: Context,
          ghost prior: seq<Impact>)
      returns (queue: seq<Entry>, seen: set<Id>, recorded: seq<Impact>)
      requires id in publications && impacts == prior + recorded0
      modifies this`publications, this`impacts, this`nextId
      ensures Walk(queue, seen, publications, recorded, nextId)
           == VisitOne(Walk(queue0, seen0, old(publications), recorded0, old(nextId)), id, e, ctx)
      ensures impacts == prior + recorded
    {
      queue, seen, recorded := queue0, seen0, recorded0;
      if id in seen { return; }
      seen := seen + {id};
      var p := publications[id];
      publications := publications[id := MarkStale(p, ctx)];
      var impact := Impact(nextId, ctx.caseId, ctx.correctionId, e.changed, id, e.depth, ctx.now);
      nextId := nextId + 1;
      impacts := impacts + [impact];
      recorded := recorded + [impact];
      queue := queue + [Entry(PublicationRef(p), e.depth + 1)];
    }

    /** Marks the event as dispatched, once: a repeated call keeps the first instant. */
    method MarkOutboxDispatched(eventId: Id, now: Time) returns (result: Result<Event, JobError>)
      requires Valid()
      modifies this
      ensures Valid()
      ensures Outcome(State(), result) == MarkDispatched(old(State()), eventId, now)
    {
      hide Inv, Grows, Backed, FirstEvent;
      DispatchSafe(State(), eventId, now);
      InvBacked(MarkDispatched(State(), eventId, now).repo);
      var k := 0;
      while k < |outbox|
        invariant 0 <= k <= |outbox|
        invariant forall j | 0 <= j < k :: outbox[j].id != eventId
      {
        if outbox[k].id == eventId {
          FirstEventIs(outbox, eventId, k);
          var e := if outbox[k].dispatchedAt.Some? then outbox[k] else outbox[k].(dispatchedAt := Some(now));
          outbox := outbox[k := e];
          return Ok(e);
        }
        k := k + 1;
      }
      return Err(UnknownId);
    }
  }

  /** One turn of the outer loop, in terms of the reverse index. */
  lemma PopUnfolds(w: Walk, reverse: map<DependencyRef, set<Id>>, graph: map<Id, Publication>, ctx: Context)
    requires w.queue != [] && w.publications.Keys == graph.Keys && w.seen <= graph.Keys
    requires Indexes(reverse, graph, ctx.caseId)
    ensures var ids := SortedIds(if w.queue[0].changed in reverse then reverse[w.queue[0].changed] else {});
            && (forall id | id in ids :: id in w.publications)
            && var next := VisitAll(w.(queue := w.queue[1..]), ids, w.queue[0], ctx);
            && next.publications.Keys == graph.Keys && next.seen <= graph.Keys
            && Drain(next, graph, ctx) == Drain(w, graph, ctx)
            && |next.queue| + |graph.Keys| - |next.seen| < |w.queue| + |graph.Keys| - |w.seen|
    ensures |w.seen| <= |graph.Keys|
  {
    hide VisitAll, SortedIds;
    IndexAnswers(reverse, graph, ctx.caseId, w.queue[0].changed);
    DependentsKnown(graph, ctx.caseId, w.queue[0].changed);
    SortedIdsMembers(Dependents(graph, ctx.caseId, w.queue[0].changed));
    SubsetSize(w.seen, graph.Keys);
    SubsetSize(Pop(w, graph, ctx).seen, graph.Keys);
  }

  lemma DrainEnds(w: Walk, graph: map<Id, Publication>, ctx: Context)
    requires w.queue == [] && w.publications.Keys == graph.Keys && w.seen <= graph.Keys
    ensures Drain(w, graph, ctx) == w
  {
  }

  lemma IndexAnswers(reverse: map<DependencyRef, set<Id>>, pubs: map<Id, Publication>, caseId: string,
        ref: DependencyRef)
    requires Indexes(reverse, pubs, caseId)
    ensures (if ref in reverse then reverse[ref] else {}) == Dependents(pubs, caseId, ref)
  {
  }

  lemma IdempotencyKnown(r: Repo)
    requires Backed(r)
    ensures forall k | k in r.idempotency :: r.idempotency[k] in r.jobs
  {
  }

  lemma LeaseKnown(r: Repo, id: Id)
    requires Backed(r) && id in r.jobs && r.jobs[id].lease.Some?
    ensures r.jobs[id].lease.value.attemptId in r.attempts
  {
  }

  lemma {:induction false} FirstEventIs(outbox: seq<Event>, eventId: Id, k: nat)
    requires k < |outbox| && outbox[k].id == eventId && forall j | 0 <= j < k :: outbox[j].id != eventId
    ensures HasEvent(outbox, eventId) && FirstEvent(outbox, eventId) == k
  {
  }

  /** A reverse index answers every lookup with the dependents of the reference. */
  ghost predicate Indexes(reverse: map<DependencyRef, set<Id>>, pubs: map<Id, Publication>, caseId: string) {
    forall ref :: (if ref in reverse then reverse[ref] else {}) == Dependents(pubs, caseId, ref)
  }

  function Lookup(reverse: map<DependencyRef, set<Id>>, ref: DependencyRef): set<Id> {
    if ref in reverse then reverse[ref] else {}
  }

  /** The reverse-dependency graph of one case, built publication by publication. */
  method ReverseIndex(pubs: map<Id, Publication>, caseId: string) returns (reverse: map<DependencyRef, set<Id>>)
    ensures Indexes(reverse, pubs, caseId)
  {
    reverse := map[];
    var left := pubs.Keys;
    while left != {}
      invariant left <= pubs.Keys
      invariant forall ref :: Lookup(reverse, ref) == Dependents(pubs, caseId, ref) - left
      decreases left
    {
      var id :| id in left;
      if pubs[id].caseId == caseId {
        ghost var before := reverse;
        var items := pubs[id].dependencies;
        while items != {}
          invariant items <= pubs[id].dependencies
          invariant forall ref ::
              Lookup(reverse, ref) == Lookup(before, ref) + if ref in pubs[id].dependencies - items then {id} else {}
          decreases items
        {
          var item :| item in items;
          reverse := reverse[item := Lookup(reverse, item) + {id}];
          items := items - {item};
        }
      }
      left := left - {id};
    }
    forall ref ensures Lookup(reverse, ref) == Dependents(pubs, caseId, ref) {}
  }
}
