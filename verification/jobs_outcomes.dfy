/** What every operation of the durable-job repository answers and leaves behind, said of the
    repository as it was before the call (apps/api/jobs/repository.py). The operations expire leases,
    look up holders and choose states by helpers of their own; none of those is named here. */
module JobOutcomes {
  import opened Basics
  import opened JobTypes
  import opened Correction
  import opened JobOperations
  import opened JobInvariant
  import opened JobSteps
  import opened JobRuns
  import opened JobResults

  // ----- who may act -----

  /** The token that may act for a job at an instant: the one of a lease that has not run out. */
  predicate Holds(r: Repo, id: Id, token: Id, now: Time) {
    && id in r.jobs && r.jobs[id].state.Running? && r.jobs[id].lease.Some?
    && r.jobs[id].lease.value.token == token && now < r.jobs[id].lease.value.leasedUntil
  }

  /** A job that runs although no token may act for it any more. */
  ghost predicate Abandoned(r: Repo, id: Id, now: Time) {
    id in r.jobs && r.jobs[id].state.Running? && forall token :: !Holds(r, id, token, now)
  }

  lemma AbandonedExactly(r: Repo, id: Id, now: Time)
    requires Inv(r) && id in r.jobs
    ensures Backed(r) && r.jobs[id].id == id
    ensures r.jobs[id].lease.Some? <==> r.jobs[id].state.Running?
    ensures Abandoned(r, id, now) <==> r.jobs[id].lease.Some? && r.jobs[id].lease.value.leasedUntil <= now
    ensures r.jobs[id].lease.Some? ==> r.jobs[id].lease.value.attemptId in r.attempts
    ensures r.jobs[id].cancelRequestedAt.Some? ==> !r.jobs[id].state.Waiting()
    ensures r.jobs[id].state.Waiting() ==> r.jobs[id].attemptCount < r.jobs[id].spec.maxAttempts
  {
    InvJob(r, id);
    hide Inv, Backed;
    var job := r.jobs[id];
    if job.lease.Some? { assert Holds(r, id, job.lease.value.token, now) <==> now < job.lease.value.leasedUntil; }
  }

  /** What becomes of an abandoned job: its attempt is over, it is cancelled if that was asked for,
      failed if its attempts are used up, and otherwise waits for another worker from now on. */
  predicate Released(job: Job, job': Job, now: Time) {
    && job' == job.(state := job'.state, lease := None, availableAt := now, updatedAt := now,
                    terminalReason := job'.terminalReason)
    && (job.cancelRequestedAt.Some? ==> job'.state.Cancelled?)
    && (job.cancelRequestedAt.None? && job.attemptCount < job.spec.maxAttempts ==>
          job'.state.RetryWait? && job'.terminalReason == None)
    && (job.cancelRequestedAt.None? && job.attemptCount >= job.spec.maxAttempts ==> job'.state == JobState.Failed)
    && (job'.state.RetryWait? || job'.terminalReason.Some?)
  }

  /** The attempt under a lease ends. */
  predicate Ends(a: Attempt, a': Attempt, now: Time, outcome: AttemptOutcome) {
    a' == a.(finishedAt := Some(now), outcome := Some(outcome))
  }

  lemma ExpiredIsReleased(job: Job, now: Time)
    ensures Released(job, ExpiredJob(job, now), now)
  {
  }

  /** An expiry that is due on one job, and nothing else. */
  ghost predicate LapseOnly(r: Repo, r': Repo, id: Id, now: Time) {
    if !Abandoned(r, id, now) then r' == r
    else
      && id in r'.jobs && Released(r.jobs[id], r'.jobs[id], now)
      && r.jobs[id].lease.Some?
      && var a := r.jobs[id].lease.value.attemptId;
      && a in r.attempts && a in r'.attempts && Ends(r.attempts[a], r'.attempts[a], now, LeaseExpired)
      && r' == r.(jobs := r.jobs[id := r'.jobs[id]], attempts := r.attempts[a := r'.attempts[a]],
                  outbox := r.outbox + [Event(r.nextId, r.jobs[id].spec.caseId, JobAggregate(id),
                                              JobMoved(r'.jobs[id].state, a, "lease_expired"), now, None)],
                  nextId := r.nextId + 1)
  }

  lemma SettleLapses(r: Repo, id: Id, now: Time)
    requires Inv(r) && Backed(r)
    ensures LapseOnly(r, Settle(r, id, now), id, now)
  {
    hide Inv, Backed;
    if id in r.jobs {
      AbandonedExactly(r, id, now);
      ExpiredIsReleased(r.jobs[id], now);
      hide Released, Abandoned, ExpiredState, ExpiredReason;
    }
  }

  /** The lease check passes for the holder and for nobody else. */
  lemma OnlyTheHolder(r: Repo, id: Id, token: Id, now: Time)
    requires Inv(r) && Backed(r)
    ensures Holds(r, id, token, now) ==>
      Settle(r, id, now) == r && LeaseCheck(r, id, token) == Ok(r.jobs[id].lease.value)
    ensures !Holds(r, id, token, now) ==>
      LeaseCheck(Settle(r, id, now), id, token) == Err(if id in r.jobs then LeaseConflict else UnknownId)
  {
    hide Inv, Backed;
    if id in r.jobs { AbandonedExactly(r, id, now); }
    hide Abandoned, EmitForJob, FinishAttempt;
  }

  /** Nobody but the holder is heard: the error says whether the job is known, and the only thing
      that can happen is the expiry that was due. */
  ghost predicate Unheard<T(!new)>(r: Repo, o: Outcome<T>, id: Id, now: Time) {
    o.result == Err(if id in r.jobs then LeaseConflict else UnknownId) && LapseOnly(r, o.repo, id, now)
  }

  // ----- the holder's operations -----

  /** A heartbeat of the holder moves the end of the lease, on the job and on its attempt. */
  lemma HeartbeatExactly(r: Repo, id: Id, token: Id, leaseFor: Time, now: Time)
    requires Inv(r) && Backed(r)
    ensures var o := Heartbeat(r, id, token, leaseFor, now);
      if leaseFor <= 0 then o == Outcome(r, Err(InvalidArgument))
      else if !Holds(r, id, token, now) then Unheard(r, o, id, now)
      else
        var job, lease := r.jobs[id], r.jobs[id].lease.value.(leasedUntil := now + leaseFor);
        && o.result == Ok(lease) && lease.attemptId in r.attempts
        && o.repo == r.(jobs := r.jobs[id := job.(lease := Some(lease), updatedAt := now)],
                        attempts := r.attempts[lease.attemptId :=
                                               r.attempts[lease.attemptId].(leasedUntil := now + leaseFor)])
        && forall t, later :: Holds(o.repo, id, t, later) <==> t == token && later < now + leaseFor
  {
    hide Inv, Backed;
    OnlyTheHolder(r, id, token, now);
    SettleLapses(r, id, now);
    if id in r.jobs { AbandonedExactly(r, id, now); }
    hide Settle, LeaseCheck, LapseOnly;
  }

  /** Cancellation is acknowledged by the holder, once it was requested. */
  lemma AcknowledgeExactly(r: Repo, id: Id, token: Id, now: Time)
    requires Inv(r) && Backed(r)
    ensures var o := AcknowledgeCancel(r, id, token, now);
      if !Holds(r, id, token, now) then Unheard(r, o, id, now)
      else
        var job, a := r.jobs[id], r.jobs[id].lease.value.attemptId;
        if job.cancelRequestedAt.None? then o == Outcome(r, Err(InvalidTransition))
        else
          && a in r.attempts && a in o.repo.attempts && id in o.repo.jobs
          && o.result == Ok(job.(state := JobState.Cancelled, lease := None, updatedAt := now))
          && Ends(r.attempts[a], o.repo.attempts[a], now, AttemptCancelled)
          && o.repo == r.(jobs := r.jobs[id := o.result.value], attempts := r.attempts[a := o.repo.attempts[a]])
  {
    hide Inv, Backed;
    OnlyTheHolder(r, id, token, now);
    SettleLapses(r, id, now);
    if id in r.jobs { AbandonedExactly(r, id, now); }
    hide Settle, LeaseCheck, LapseOnly;
  }

  /** An attempt that the holder gives up: the job is cancelled iff that was requested; otherwise it waits,
      from the end of the delay, iff attempts remain and that instant is before its deadline. */
  lemma FailExactly(r: Repo, id: Id, token: Id, reason: string, retryDelay: Time, now: Time)
    requires Inv(r) && Backed(r)
    ensures var o := Fail(r, id, token, reason, retryDelay, now);
      if retryDelay < 0 then o == Outcome(r, Err(InvalidArgument))
      else if !Holds(r, id, token, now) then Unheard(r, o, id, now)
      else
        && o.result.Ok? && GivenUp(r.jobs[id], o.result.value, reason, now + retryDelay, now)
        && r.jobs[id].lease.value.attemptId in r.attempts
        && var a := r.jobs[id].lease.value.attemptId;
        && a in o.repo.attempts
        && Ends(r.attempts[a], o.repo.attempts[a], now, AttemptFailedTo(o.result.value.state))
        && o.repo == r.(jobs := r.jobs[id := o.result.value], attempts := r.attempts[a := o.repo.attempts[a]],
                        outbox := r.outbox + [Event(r.nextId, r.jobs[id].spec.caseId, JobAggregate(id),
                                                    JobMoved(o.result.value.state, a, reason), now, None)],
                        nextId := r.nextId + 1)
  {
    hide Inv, Backed;
    OnlyTheHolder(r, id, token, now);
    SettleLapses(r, id, now);
    if id in r.jobs { AbandonedExactly(r, id, now); }
    hide Settle, LeaseCheck, LapseOnly;
  }

  predicate GivenUp(job: Job, job': Job, reason: string, next: Time, now: Time) {
    && job' == job.(state := job'.state, lease := None, availableAt := next, updatedAt := now,
                    terminalReason := if job'.state.RetryWait? then None else Some(reason))
    && (job'.state.Cancelled? <==> job.cancelRequestedAt.Some?)
    && (job'.state.RetryWait? <==>
          && job.cancelRequestedAt.None? && job.attemptCount < job.spec.maxAttempts
          && (job.spec.deadline.Some? ==> next < job.spec.deadline.value))
    && (job'.state.Cancelled? || job'.state.RetryWait? || job'.state == JobState.Failed)
  }

  /** An output is staged under a new name once; under a known name it must be the same output again. */
  lemma StageExactly(r: Repo, id: Id, token: Id, name: string, uri: string, digest: string, metadata: string, now: Time)
    requires Inv(r) && Backed(r)
    ensures var o := StageOutput(r, id, token, name, uri, digest, metadata, now);
      if name == "" || uri == "" || digest == "" then o == Outcome(r, Err(InvalidArgument))
      else if !Holds(r, id, token, now) then Unheard(r, o, id, now)
      else if r.jobs[id].cancelRequestedAt.Some? then o == Outcome(r, Err(InvalidTransition))
      else
        var a := r.jobs[id].lease.value.attemptId;
        if a in r.staged && name in r.staged[a] then
          var known := r.staged[a][name];
          && o.repo == r
          && o.result == if known.objectUri == uri && known.contentDigest == digest && known.metadata == metadata
                         then Ok(known) else Err(IdempotencyConflict)
        else
          && o.result == Ok(StagedOutput(r.nextId, id, a, name, uri, digest, metadata, now))
          && a in o.repo.staged && name in o.repo.staged[a] && o.repo.staged[a][name] == o.result.value
          && (forall other | other != name ::
                other in o.repo.staged[a] <==> a in r.staged && other in r.staged[a])
          && (forall other | other != name && other in o.repo.staged[a] ::
                o.repo.staged[a][other] == r.staged[a][other])
          && o.repo == r.(staged := r.staged[a := o.repo.staged[a]], nextId := r.nextId + 1)
  {
    hide Inv, Backed;
    OnlyTheHolder(r, id, token, now);
    SettleLapses(r, id, now);
    if id in r.jobs { AbandonedExactly(r, id, now); }
    hide Settle, LeaseCheck, LapseOnly;
  }

  // ----- publication -----

  /** The publication that a completion commits: everything the attempt staged, one generation after
      the head of its key. */
  ghost predicate NextUnder(r: Repo, p: Publication, id: Id, resultKey: string, dependencies: set<DependencyRef>,
        now: Time)
    requires Backed(r) && id in r.jobs && r.jobs[id].lease.Some?
  {
    var job, a := r.jobs[id], r.jobs[id].lease.value.attemptId;
    var key := (job.spec.caseId, resultKey);
    && a in r.staged
    && p == Publication(r.nextId, job.spec.caseId, resultKey, p.generation, id, a, r.staged[a], dependencies, Current,
                        now, None, None, p.supersedes)
    && (if key in r.current
        then p.supersedes == Some(r.current[key]) && p.generation == r.publications[r.current[key]].generation + 1
        else p.supersedes == None && p.generation == 1)
  }

  /** A completion publishes for the holder of a job that staged something and was not asked to stop; repeated
      under its completion key it returns the receipt, whoever calls. */
  lemma CompleteExactly(r: Repo, id: Id, token: Id, resultKey: string, dependencies: set<DependencyRef>,
        completion: string, now: Time)
    requires Inv(r) && Backed(r)
    ensures var o := CompleteAndPublish(r, id, token, resultKey, dependencies, completion, now);
      if resultKey == "" || completion == "" then o == Outcome(r, Err(InvalidArgument))
      else if (id, completion) in r.receipts then o == Outcome(r, Ok(r.receipts[(id, completion)]))
      else if !Holds(r, id, token, now) then Unheard(r, o, id, now)
      else
        var job, a := r.jobs[id], r.jobs[id].lease.value.attemptId;
        if job.cancelRequestedAt.Some? || a !in r.staged || r.staged[a] == map[]
        then o == Outcome(r, Err(InvalidTransition))
        else
          && o.result.Ok? && NextUnder(r, o.result.value, id, resultKey, dependencies, now)
          && var p := o.result.value;
          && a in r.attempts && a in o.repo.attempts
          && Ends(r.attempts[a], o.repo.attempts[a], now, AttemptSucceeded)
          && o.repo == r.(jobs := r.jobs[id := job.(state := JobState.Succeeded, lease := None,
                                                    publicationId := Some(p.id), updatedAt := now)],
                          attempts := r.attempts[a := o.repo.attempts[a]],
                          publications := r.publications[p.id := p],
                          current := r.current[(job.spec.caseId, resultKey) := p.id],
                          receipts := r.receipts[(id, completion) := p],
                          outbox := r.outbox + [Event(r.nextId + 1, job.spec.caseId, PublicationAggregate(p.id),
                                                      PublicationCommitted(id, resultKey, p.generation), now, None)],
                          nextId := r.nextId + 2)
  {
    hide Inv, Backed;
    OnlyTheHolder(r, id, token, now);
    SettleLapses(r, id, now);
    if id in r.jobs { AbandonedExactly(r, id, now); }
    hide Settle, LeaseCheck, LapseOnly;
  }

  // ----- everybody's operations -----

  /** One job per case and idempotency key: a spec is taken exactly when its key is new and its deadline
      ahead, and the job then waits from now on. */
  lemma SubmitExactly(r: Repo, spec: JobSpec, now: Time)
    requires Inv(r) && Backed(r)
    ensures var o := Submit(r, spec, now);
      if spec.caseId == "" || spec.kind == "" || spec.idempotencyKey == "" || spec.inputDigest == ""
        || spec.maxAttempts < 1
      then o == Outcome(r, Err(InvalidArgument))
      else if exists id :: SameKey(r, id, spec) then
        && o.repo == r
        && forall id | SameKey(r, id, spec) ::
             o.result == if r.jobs[id].spec == spec then Ok(r.jobs[id]) else Err(IdempotencyConflict)
      else if spec.deadline.Some? && spec.deadline.value <= now then o == Outcome(r, Err(DeadlineExceeded))
      else
        var job := Job(r.nextId, spec, Queued, 0, now, now, now, None, None, None, None);
        && o.result == Ok(job) && r.nextId !in r.jobs
        && o.repo == r.(jobs := r.jobs[job.id := job], order := r.order + [job.id],
                        idempotency := r.idempotency[(spec.caseId, spec.idempotencyKey) := job.id],
                        outbox := r.outbox + [Event(r.nextId + 1, spec.caseId, JobAggregate(job.id),
                                                    JobSubmitted(spec.kind, spec.inputDigest), now, None)],
                        nextId := r.nextId + 2)
  {
    hide Inv, Backed, SameKey;
    NextIdFresh(r);
    KeysKnown(r, spec);
  }

  predicate SameKey(r: Repo, id: Id, spec: JobSpec) {
    id in r.jobs && r.jobs[id].spec.caseId == spec.caseId && r.jobs[id].spec.idempotencyKey == spec.idempotencyKey
  }

  lemma KeysKnown(r: Repo, spec: JobSpec)
    requires Inv(r)
    ensures var key := (spec.caseId, spec.idempotencyKey);
      && (forall id :: SameKey(r, id, spec) <==> key in r.idempotency && id == r.idempotency[key])
      && (key in r.idempotency ==> SameKey(r, r.idempotency[key], spec))
  {
    hide Work, StagedOk, PublishedOk, OutputsOk, HistoryOk, ReceiptsOk, EventsOk;
  }

  /** Cancellation is requested of a job that is not over. A waiting one is cancelled at once, as is an
      abandoned one that would have been retried; a running one keeps running, with its first request. */
  lemma RequestCancelExactly(r: Repo, id: Id, reason: string, now: Time)
    requires Inv(r) && Backed(r)
    ensures var o := RequestCancel(r, id, reason, now);
      if id !in r.jobs then o == Outcome(r, Err(UnknownId))
      else
        && o.result.Ok? && id in o.repo.jobs && o.repo.jobs[id] == o.result.value
        && (forall other | other != id ::
              (other in o.repo.jobs <==> other in r.jobs)
              && (other in r.jobs ==> o.repo.jobs[other] == r.jobs[other]))
        && CancelAsked(r.jobs[id], o.result.value, Abandoned(r, id, now), reason, now)
        && (r.jobs[id].state.Terminal() ==> o.repo == r)
        && (!Abandoned(r, id, now) ==> o.repo.attempts == r.attempts)
        && (Abandoned(r, id, now) ==> LapsedAttempt(r, o.repo, id, now))
        && o.repo.(jobs := r.jobs, attempts := r.attempts, outbox := r.outbox, nextId := r.nextId) == r
  {
    hide Inv, Backed, Abandoned, CancelAsked, Released, RequestCancel, Settle, Ends;
    SettleLapses(r, id, now);
    if id in r.jobs {
      AbandonedExactly(r, id, now);
      RequestOnSettled(r, id, reason, now);
      SettledAnswers(r, id, now);
      CancelComposed(r.jobs[id], Settle(r, id, now).jobs[id], RequestCancel(r, id, reason, now).result.value,
                     Abandoned(r, id, now), reason, now);
    } else {
      UnknownRequest(r, id, reason, now);
    }
  }

  lemma UnknownRequest(r: Repo, id: Id, reason: string, now: Time)
    requires Backed(r) && id !in r.jobs
    ensures RequestCancel(r, id, reason, now) == Outcome(r, Err(UnknownId))
  {
  }

  /** A request, on the job as it stands once a due expiry is done. */
  predicate Requested(job: Job, job': Job, reason: string, now: Time) {
    if job.state.Terminal() then job' == job
    else if job.state.Running? then
      job' == job.(cancelRequestedAt := if job.cancelRequestedAt.Some? then job.cancelRequestedAt else Some(now),
                   terminalReason := Some(reason), updatedAt := now)
    else
      job' == job.(state := JobState.Cancelled, cancelRequestedAt := Some(now), terminalReason := Some(reason),
                   updatedAt := now)
  }

  lemma RequestOnSettled(r: Repo, id: Id, reason: string, now: Time)
    requires Backed(r) && id in r.jobs
    ensures var s, o := Settle(r, id, now), RequestCancel(r, id, reason, now);
      && id in s.jobs && o.result.Ok? && o.repo.jobs == s.jobs[id := o.result.value]
      && Requested(s.jobs[id], o.result.value, reason, now) && o.repo.attempts == s.attempts
      && o.repo.(jobs := s.jobs, attempts := s.attempts, outbox := s.outbox, nextId := s.nextId) == s
      && (s.jobs[id].state.Terminal() ==> o.repo == s)
  {
    hide Settle;
    assert Settle(r, id, now).jobs[id].id == id;
  }

  /** The job and its attempt once a due expiry is done. */
  lemma SettledAnswers(r: Repo, id: Id, now: Time)
    requires Inv(r) && Backed(r) && id in r.jobs && LapseOnly(r, Settle(r, id, now), id, now)
    ensures var s := Settle(r, id, now);
      && (!Abandoned(r, id, now) ==> s == r)
      && (Abandoned(r, id, now) ==>
            && Released(r.jobs[id], s.jobs[id], now) && LapsedAttempt(r, s, id, now)
            && s.jobs == r.jobs[id := s.jobs[id]] && r.jobs[id].state.Running?)
      && s.(jobs := r.jobs, attempts := r.attempts, outbox := r.outbox, nextId := r.nextId) == r
  {
    hide Inv, Backed, Released, Settle, Ends;
  }

  lemma CancelComposed(job: Job, settled: Job, job': Job, abandoned: bool, reason: string, now: Time)
    requires Requested(settled, job', reason, now)
    requires if abandoned then job.state.Running? && Released(job, settled, now) else settled == job
    requires !job.state.Running? ==> job.lease.None?
    ensures CancelAsked(job, job', abandoned, reason, now)
  {
  }

  predicate CancelAsked(job: Job, job': Job, abandoned: bool, reason: string, now: Time) {
    if job.state.Terminal() then job' == job
    else if !abandoned && job.state.Running? then
      job' == job.(cancelRequestedAt := if job.cancelRequestedAt.Some? then job.cancelRequestedAt else Some(now),
                   terminalReason := Some(reason), updatedAt := now)
    else if abandoned && (job.cancelRequestedAt.Some? || job.attemptCount >= job.spec.maxAttempts) then
      Released(job, job', now)
    else
      job' == job.(state := JobState.Cancelled, cancelRequestedAt := Some(now), terminalReason := Some(reason),
                   updatedAt := now, lease := None, availableAt := if abandoned then now else job.availableAt)
  }

  ghost predicate LapsedAttempt(r: Repo, r': Repo, id: Id, now: Time)
    requires id in r.jobs
  {
    && r.jobs[id].lease.Some?
    && var a := r.jobs[id].lease.value.attemptId;
    && a in r.attempts && a in r'.attempts && Ends(r.attempts[a], r'.attempts[a], now, LeaseExpired)
    && r'.attempts == r.attempts[a := r'.attempts[a]]
  }

  /** The first instant of dispatch is kept; nothing else of the outbox changes. */
  lemma DispatchExactly(r: Repo, eventId: Id, now: Time)
    requires Inv(r)
    ensures var o := MarkDispatched(r, eventId, now);
      && (o.result.Err? ==>
         o == Outcome(r, Err(UnknownId)) && forall k | 0 <= k < |r.outbox| :: r.outbox[k].id != eventId)
      && (o.result.Ok? ==>
            && |o.repo.outbox| == |r.outbox| && o.repo.(outbox := r.outbox) == r
            && forall k | 0 <= k < |r.outbox| ::
                 if r.outbox[k].id != eventId then o.repo.outbox[k] == r.outbox[k]
                 else
                   o.repo.outbox[k] == o.result.value
                   && o.result.value == if r.outbox[k].dispatchedAt.Some? then r.outbox[k]
                                        else r.outbox[k].(dispatchedAt := Some(now)))
  {
    EventIdsDiffer(r);
    hide Inv, HasEvent, FirstEvent, Dispatched;
    NoEvent(r.outbox, eventId);
    if HasEvent(r.outbox, eventId) {
      var k := FirstEvent(r.outbox, eventId);
      forall j | 0 <= j < |r.outbox| && j != k ensures r.outbox[j].id != eventId {}
      DispatchedKeeps(r.outbox[k], now);
    }
  }

  lemma NoEvent(outbox: seq<Event>, eventId: Id)
    ensures HasEvent(outbox, eventId) <==> exists k :: 0 <= k < |outbox| && outbox[k].id == eventId
  {
  }

  lemma DispatchedKeeps(e: Event, now: Time)
    ensures Dispatched(e, now) == if e.dispatchedAt.Some? then e else e.(dispatchedAt := Some(now))
  {
  }

  lemma EventIdsDiffer(r: Repo)
    requires Inv(r)
    ensures forall j, k | 0 <= j < k < |r.outbox| :: r.outbox[j].id != r.outbox[k].id
  {
    hide Work, StagedOk, PublishedOk, OutputsOk, HistoryOk, ReceiptsOk, IdempotencyOk;
  }

  // ----- claims: the expiry of every lapsed lease -----

  ghost predicate LapsedUnder(r: Repo, ids: seq<Id>, a: Id, now: Time)
    requires a in r.attempts
  {
    var id := r.attempts[a].jobId;
    id in ids && id in r.jobs && LeaseLapsed(r.jobs[id], now) && r.jobs[id].lease.value.attemptId == a
  }

  ghost predicate JobsExpired(r: Repo, s: Repo, ids: seq<Id>, now: Time) {
    && s.jobs.Keys == r.jobs.Keys
    && forall id | id in r.jobs ::
         s.jobs[id] == if id in ids && LeaseLapsed(r.jobs[id], now) then ExpiredJob(r.jobs[id], now) else r.jobs[id]
  }

  ghost predicate AttemptsExpired(r: Repo, s: Repo, ids: seq<Id>, now: Time) {
    && s.attempts.Keys == r.attempts.Keys
    && forall a | a in r.attempts ::
         s.attempts[a] ==
         if LapsedUnder(r, ids, a, now) then Finished(r.attempts[a], now, LeaseExpired) else r.attempts[a]
  }

  lemma {:induction false} ExpireAllExact(r: Repo, ids: seq<Id>, now: Time)
    requires Inv(r) && Backed(r) && forall id | id in ids :: id in r.jobs
    ensures var s := ExpireAll(r, ids, now);
      JobsExpired(r, s, ids, now) && AttemptsExpired(r, s, ids, now) && SameStore(r, s) && r.nextId <= s.nextId
    decreases |ids|
  {
    hide Inv, Backed, ExpireLease, JobsExpired, AttemptsExpired, LapsedUnder;
    if ids == [] {
      NothingExpired(r, now);
    } else {
      assert ids[0] in ids;
      ExpireLeaseSafe(r, ids[0], now);
      ExpireLeaseBacked(r, ids[0], now);
      var next := ExpireLease(r, ids[0], now);
      ExpireAllExact(next, ids[1..], now);
      OneExpired(r, ids[0], now);
      ExpiredMore(r, next, ExpireAll(next, ids[1..], now), ids, now);
    }
  }

  lemma NothingExpired(r: Repo, now: Time)
    ensures JobsExpired(r, r, [], now) && AttemptsExpired(r, r, [], now)
  {
  }

  lemma OneExpired(r: Repo, id: Id, now: Time)
    requires Inv(r) && Backed(r) && id in r.jobs
    ensures var next := ExpireLease(r, id, now);
      SameStore(r, next) && r.nextId <= next.nextId && OneLapse(r, next, id, now)
  {
    hide Inv, Backed, ExpiredJob, LeaseBacked, JobOk;
    InvJob(r, id);
    if r.jobs[id].lease.Some? { OpenAttempt(r, id); }
    ExpiredKeepsId(r.jobs[id], now);
  }

  lemma ExpiredKeepsId(job: Job, now: Time)
    ensures ExpiredJob(job, now).id == job.id
  {
  }

  ghost predicate OneLapse(r: Repo, next: Repo, id: Id, now: Time)
    requires id in r.jobs
  {
    if !LeaseLapsed(r.jobs[id], now) then next == r
    else
      var a := r.jobs[id].lease.value.attemptId;
      && a in r.attempts && r.attempts[a].jobId == id
      && next.jobs == r.jobs[id := ExpiredJob(r.jobs[id], now)]
      && next.attempts == r.attempts[a := Finished(r.attempts[a], now, LeaseExpired)]
  }

  lemma ExpiredMore(r: Repo, next: Repo, s: Repo, ids: seq<Id>, now: Time)
    requires ids != [] && ids[0] in r.jobs && OneLapse(r, next, ids[0], now)
    requires JobsExpired(next, s, ids[1..], now) && AttemptsExpired(next, s, ids[1..], now)
    ensures JobsExpired(r, s, ids, now) && AttemptsExpired(r, s, ids, now)
  {
    hide ExpiredJob, Finished;
    assert forall id :: id in ids <==> id == ids[0] || id in ids[1..];
    if LeaseLapsed(r.jobs[ids[0]], now) { ExpiredRests(r.jobs[ids[0]], now); }
    assert JobsExpired(r, s, ids, now);
    AttemptsMore(r, next, s, ids, now);
  }

  lemma ExpiredRests(job: Job, now: Time)
    ensures !LeaseLapsed(ExpiredJob(job, now), now)
  {
  }

  lemma AttemptsMore(r: Repo, next: Repo, s: Repo, ids: seq<Id>, now: Time)
    requires ids != [] && ids[0] in r.jobs && OneLapse(r, next, ids[0], now) && AttemptsExpired(next, s, ids[1..], now)
    ensures AttemptsExpired(r, s, ids, now)
  {
    hide ExpiredState, ExpiredReason;
    assert forall id :: id in ids <==> id == ids[0] || id in ids[1..];
    assert next.attempts.Keys == r.attempts.Keys;
    forall a | a in r.attempts
      ensures s.attempts[a] ==
              if LapsedUnder(r, ids, a, now) then Finished(r.attempts[a], now, LeaseExpired) else r.attempts[a]
    {
      assert next.attempts[a].jobId == r.attempts[a].jobId;
    }
  }

  // ----- claims: what the chosen job gets -----

  /** The lease that a claim gives out is backed by a new attempt with a new token. */
  ghost predicate NewAttempt(s: Repo, r': Repo, lease: Option<Lease>, worker: string, leaseFor: Time, now: Time) {
    match lease
    case None => r'.attempts == s.attempts
    case Some(l) =>
      && l.jobId in s.jobs && l.attemptId == s.nextId && l.token == s.nextId + 1
      && l.number == s.jobs[l.jobId].attemptCount + 1
      && r'.attempts == s.attempts[l.attemptId := Attempt(l.attemptId, l.jobId, l.number, worker, l.token, now,
                                                         now + leaseFor, None, None)]
  }

  /** A claim leaves everything else alone and tells of the lease it gave out. */
  ghost predicate OnlyClaimed(s: Repo, r': Repo, lease: Option<Lease>, worker: string, now: Time) {
    && SameStore(s, r') && r'.jobs.Keys == s.jobs.Keys
    && match lease
       case None => r'.outbox == s.outbox
       case Some(l) =>
         && l.jobId in s.jobs
         && r'.outbox == s.outbox + [Event(s.nextId + 2, s.jobs[l.jobId].spec.caseId, JobAggregate(l.jobId),
                                           JobClaimed(l.attemptId, l.number, worker), now, None)]
  }

  lemma {:induction false} ClaimFirstKeeps(s: Repo, list: seq<Job>, worker: string, leaseFor: Time, now: Time)
    requires WaitingList(s, list)
    ensures var (r', lease) := ClaimFirst(s, list, worker, leaseFor, now);
      NewAttempt(s, r', lease, worker, leaseFor, now) && OnlyClaimed(s, r', lease, worker, now)
    decreases |list|
  {
    hide StartAttempt, LeaseFor, NewAttempt, OnlyClaimed, DeadlineFailed;
    if list == [] {
      NothingStarted(s, worker, leaseFor, now);
    } else if list[0].spec.DeadlinePassed(now) {
      WaitingRest(s, list, now);
      var next := PutJob(s, DeadlineFailed(list[0], now));
      ClaimFirstKeeps(next, list[1..], worker, leaseFor, now);
      var (r', lease) := ClaimFirst(next, list[1..], worker, leaseFor, now);
      FailedBefore(s, list[0], r', lease, worker, leaseFor, now);
    } else {
      StartedOne(s, list[0], worker, leaseFor, now);
    }
  }

  lemma NothingStarted(s: Repo, worker: string, leaseFor: Time, now: Time)
    ensures NewAttempt(s, s, None, worker, leaseFor, now) && OnlyClaimed(s, s, None, worker, now)
  {
  }

  lemma StartedOne(s: Repo, job: Job, worker: string, leaseFor: Time, now: Time)
    requires job.id in s.jobs && s.jobs[job.id] == job
    ensures var r', lease := StartAttempt(s, job, worker, leaseFor, now), Some(LeaseFor(s, job, worker, leaseFor, now));
      NewAttempt(s, r', lease, worker, leaseFor, now) && OnlyClaimed(s, r', lease, worker, now)
  {
    assert StartAttempt(s, job, worker, leaseFor, now).jobs.Keys == s.jobs.Keys;
  }

  lemma FailedBefore(s: Repo, job: Job, r': Repo, lease: Option<Lease>, worker: string, leaseFor: Time, now: Time)
    requires job.id in s.jobs && s.jobs[job.id] == job
    requires var next := PutJob(s, DeadlineFailed(job, now));
      NewAttempt(next, r', lease, worker, leaseFor, now) && OnlyClaimed(next, r', lease, worker, now)
    ensures NewAttempt(s, r', lease, worker, leaseFor, now) && OnlyClaimed(s, r', lease, worker, now)
  {
    assert PutJob(s, DeadlineFailed(job, now)).jobs.Keys == s.jobs.Keys;
  }

  // ----- claims: who gets a lease -----

  /** A job that a worker of these kinds may be given: it waits and its time has come, or it is abandoned,
      was not asked to stop and has attempts left. */
  ghost predicate Ready(r: Repo, id: Id, kinds: Option<set<string>>, now: Time) {
    && id in r.jobs && (kinds.Some? ==> r.jobs[id].spec.kind in kinds.value)
    && (|| ((r.jobs[id].state.Queued? || r.jobs[id].state.RetryWait?) && r.jobs[id].availableAt <= now)
        || (Abandoned(r, id, now) && r.jobs[id].cancelRequestedAt.None?
            && r.jobs[id].attemptCount < r.jobs[id].spec.maxAttempts))
  }

  predicate InTime(job: Job, now: Time) { job.spec.deadline.Some? ==> now < job.spec.deadline.value }

  /** Since when a ready job has been waiting: an abandoned one since its lease is found to have run out. */
  function ReadySince(job: Job, now: Time): Time { if job.state.Running? then now else job.availableAt }

  /** First come, first served; then the older job, then the smaller id. */
  predicate Precedes(a: Job, b: Job, now: Time) {
    || ReadySince(a, now) < ReadySince(b, now)
    || (ReadySince(a, now) == ReadySince(b, now)
        && (a.createdAt < b.createdAt || (a.createdAt == b.createdAt && a.id < b.id)))
  }

  /** The chosen job is ready and in time, and precedes every other such job. */
  ghost predicate Chosen(r: Repo, id: Id, kinds: Option<set<string>>, now: Time) {
    && Ready(r, id, kinds, now) && InTime(r.jobs[id], now)
    && forall other | Ready(r, other, kinds, now) && InTime(r.jobs[other], now) && other != id ::
         Precedes(r.jobs[id], r.jobs[other], now)
  }

  /** A ready job that comes before the chosen one, or any if none is chosen. */
  ghost predicate PassedBy(r: Repo, id: Id, lease: Option<Lease>, kinds: Option<set<string>>, now: Time) {
    && Ready(r, id, kinds, now) && !InTime(r.jobs[id], now)
    && (lease.Some? ==> lease.value.jobId in r.jobs && Precedes(r.jobs[id], r.jobs[lease.value.jobId], now))
  }

  /** What a claim makes of one job: it runs under the new lease, fails on its deadline, is released, or
      stays as it is. */
  ghost predicate ClaimMakes(r: Repo, id: Id, job': Job, lease: Option<Lease>, kinds: Option<set<string>>, now: Time)
    requires id in r.jobs
  {
    var job := r.jobs[id];
    if lease.Some? && id == lease.value.jobId then
      job' == job.(state := Running, attemptCount := job.attemptCount + 1, lease := lease, updatedAt := now,
                   availableAt := ReadySince(job, now), terminalReason := job'.terminalReason)
      && (job.state.Running? ==> job'.terminalReason == None)
      && (!job.state.Running? ==> job'.terminalReason == job.terminalReason)
    else if PassedBy(r, id, lease, kinds, now) then
      job' == job.(state := JobState.Failed, lease := None, updatedAt := now, availableAt := ReadySince(job, now),
                   terminalReason := Some("job deadline elapsed before claim"))
    else if Abandoned(r, id, now) then Released(job, job', now)
    else job' == job
  }

  /** The attempts after a claim: those of abandoned leases are over, the others stay, and the one behind the
      new lease is new in its id and its token. */
  ghost predicate ClaimAttempts(r: Repo, r': Repo, lease: Option<Lease>, worker: string, leaseFor: Time, now: Time) {
    && (forall a | a in r.attempts ::
          && a in r'.attempts
             && (lease.Some? ==> a != lease.value.attemptId && r.attempts[a].token != lease.value.token)
          && var id := r.attempts[a].jobId;
          if Abandoned(r, id, now) && r.jobs[id].lease.Some? && r.jobs[id].lease.value.attemptId == a
          then Ends(r.attempts[a], r'.attempts[a], now, LeaseExpired)
          else r'.attempts[a] == r.attempts[a])
    && (forall a | a in r'.attempts && a !in r.attempts :: lease.Some? && a == lease.value.attemptId)
    && (lease.Some? ==>
          var l := lease.value;
          && l.jobId in r.jobs && l.number == r.jobs[l.jobId].attemptCount + 1
          && l.worker == worker && l.leasedUntil == now + leaseFor && l.attemptId in r'.attempts
          && r'.attempts[l.attemptId]
             == Attempt(l.attemptId, l.jobId, l.number, worker, l.token, now, now + leaseFor, None, None))
  }

  /** A claim in full. It leases the first job that is ready and in time, abandoned jobs included, and answers
      None exactly when there is none. No job is left abandoned. */
  lemma ClaimTakesTheFirst(r: Repo, worker: string, leaseFor: Time, kinds: Option<set<string>>, now: Time)
    requires Inv(r) && Backed(r)
    ensures var o := Claim(r, worker, leaseFor, kinds, now);
      if worker == "" || leaseFor <= 0 then o == Outcome(r, Err(InvalidArgument))
      else
        && o.result.Ok? && var lease := o.result.value;
        && (lease.None? ==> forall id | Ready(r, id, kinds, now) :: !InTime(r.jobs[id], now))
        && (lease.Some? ==> Chosen(r, lease.value.jobId, kinds, now))
        && o.repo.jobs.Keys == r.jobs.Keys
        && (forall id | id in r.jobs :: ClaimMakes(r, id, o.repo.jobs[id], lease, kinds, now))
        && (forall id | id in r.jobs :: !Abandoned(o.repo, id, now))
        && ClaimAttempts(r, o.repo, lease, worker, leaseFor, now) && SameStore(r, o.repo)
  {
    hide Inv, Backed, Ready, Chosen, ClaimMakes, Abandoned, ClaimAttempts, InTime, SameStore, Claim, ExpireAll;
    if worker != "" && leaseFor > 0 {
      OrderKnown(r);
      ClaimSafe(r, worker, leaseFor, kinds, now);
      ClaimUnfolds(r, worker, leaseFor, kinds, now);
      ClaimFromSettled(r, worker, leaseFor, kinds, now);
      ClaimComposes(r, worker, leaseFor, kinds, now);
    } else {
      ClaimRefused(r, worker, leaseFor, kinds, now);
    }
  }

  /** The settled repository, seen from the one before the call. */
  ghost predicate SeenFrom(r: Repo, s: Repo, id: Id, kinds: Option<set<string>>, now: Time)
    requires id in r.jobs && id in s.jobs
  {
    var job, settled := r.jobs[id], s.jobs[id];
    && (Abandoned(r, id, now) ==> Released(job, settled, now))
    && (!Abandoned(r, id, now) ==> settled == job)
    && (Claimable(settled, kinds, now) <==> Ready(r, id, kinds, now))
    && (Ready(r, id, kinds, now) ==>
          settled == job.(state := settled.state, lease := None, availableAt := ReadySince(job, now),
                          updatedAt := settled.updatedAt,
                          terminalReason := if job.state.Running? then None else job.terminalReason))
    && (job.state.Running? && Ready(r, id, kinds, now) ==> Abandoned(r, id, now))
    && settled.id == id && job.id == id && settled.spec == job.spec && settled.createdAt == job.createdAt
    && settled.attemptCount == job.attemptCount
  }

  lemma SettledSeen(r: Repo, s: Repo, id: Id, kinds: Option<set<string>>, now: Time)
    requires Inv(r) && id in r.jobs && JobsExpired(r, s, r.order, now)
    ensures id in s.jobs && SeenFrom(r, s, id, kinds, now)
  {
    hide Inv, Backed, Abandoned, NoDuplicates;
    AbandonedExactly(r, id, now);
    OrderDistinct(r);
    ExpiredIsReleased(r.jobs[id], now);
    var job := r.jobs[id];
    assert s.jobs[id] == if LeaseLapsed(job, now) then ExpiredJob(job, now) else job;
    hide JobsExpired;
  }

  /** What the claim made of one job, from what it made of the settled one. */
  lemma LeasedMakes(r: Repo, s: Repo, r': Repo, id: Id, l: Lease, kinds: Option<set<string>>, now: Time)
    requires id in r.jobs && id in s.jobs && id in r'.jobs && SeenFrom(r, s, id, kinds, now)
    requires l.jobId in r.jobs && l.jobId in s.jobs && SeenFrom(r, s, l.jobId, kinds, now)
    requires FirstLeased(s, r', l, kinds, now)
    ensures ClaimMakes(r, id, r'.jobs[id], Some(l), kinds, now)
    ensures Ready(r, l.jobId, kinds, now) && InTime(r.jobs[l.jobId], now)
    ensures Ready(r, id, kinds, now) && InTime(r.jobs[id], now) && id != l.jobId ==>
      Precedes(r.jobs[l.jobId], r.jobs[id], now)
  {
    hide Abandoned, Ready, Released, Claimable;
  }

  lemma NoneMakes(r: Repo, s: Repo, r': Repo, id: Id, kinds: Option<set<string>>, now: Time)
    requires id in r.jobs && id in s.jobs && id in r'.jobs && SeenFrom(r, s, id, kinds, now)
    requires NoneLeft(s, r', kinds, now)
    ensures ClaimMakes(r, id, r'.jobs[id], None, kinds, now)
    ensures Ready(r, id, kinds, now) ==> !InTime(r.jobs[id], now)
  {
    hide Abandoned, Ready, Released, Claimable;
  }

  /** Nobody's lease has run out on a job that the claim dealt with. */
  lemma NotAbandoned(r: Repo, r': Repo, id: Id, lease: Option<Lease>, kinds: Option<set<string>>, now: Time)
    requires Inv(r) && Inv(r') && id in r.jobs && id in r'.jobs && ClaimMakes(r, id, r'.jobs[id], lease, kinds, now)
    requires lease.Some? ==> lease.value.leasedUntil > now
    ensures !Abandoned(r', id, now)
  {
    hide Inv, Backed, Abandoned, PassedBy;
    AbandonedExactly(r, id, now);
    AbandonedExactly(r', id, now);
  }

  lemma IdsBounded(r: Repo)
    requires Inv(r)
    ensures forall a | a in r.attempts ::
        a < r.nextId && r.attempts[a].token < r.nextId && r.attempts[a].jobId in r.jobs
  {
    hide Store, JobsOk, LeaseBacked, AttemptsDistinct, Numbered;
  }

  lemma AttemptsSeen(r: Repo, s: Repo, r': Repo, lease: Option<Lease>, worker: string, leaseFor: Time, now: Time)
    requires Inv(r) && AttemptsExpired(r, s, r.order, now) && r.nextId <= s.nextId
    requires NewAttempt(s, r', lease, worker, leaseFor, now)
    requires forall id | id in s.jobs :: id in r.jobs && s.jobs[id].attemptCount == r.jobs[id].attemptCount
    requires lease.Some? ==> lease.value.worker == worker && lease.value.leasedUntil == now + leaseFor
    ensures ClaimAttempts(r, r', lease, worker, leaseFor, now)
  {
    hide Inv, Backed, Abandoned, NoDuplicates, LeaseLapsed, AttemptsExpired, Finished;
    IdsBounded(r);
    OrderDistinct(r);
    forall id | id in r.jobs ensures Abandoned(r, id, now) <==> LeaseLapsed(r.jobs[id], now) {
      LapsedExactly(r, id, now);
    }
    forall a | a in r.attempts
      ensures a in s.attempts && AttemptSeen(r, a, s.attempts[a], now)
    {
      OneAttemptSeen(r, s, a, now);
    }
    assert s.attempts.Keys == r.attempts.Keys by { ExpiredKeys(r, s, now); }
    hide AttemptSeen;
    AttemptsWithNew(r, s, r', lease, worker, leaseFor, now);
  }

  ghost predicate AttemptSeen(r: Repo, a: Id, a': Attempt, now: Time)
    requires a in r.attempts
  {
    var id := r.attempts[a].jobId;
    if Abandoned(r, id, now) && id in r.jobs && r.jobs[id].lease.Some? && r.jobs[id].lease.value.attemptId == a
    then Ends(r.attempts[a], a', now, LeaseExpired)
    else a' == r.attempts[a]
  }

  lemma LapsedExactly(r: Repo, id: Id, now: Time)
    requires Inv(r) && id in r.jobs
    ensures Abandoned(r, id, now) <==> LeaseLapsed(r.jobs[id], now)
  {
    hide Inv, Backed, Abandoned;
    AbandonedExactly(r, id, now);
  }

  lemma OneAttemptSeen(r: Repo, s: Repo, a: Id, now: Time)
    requires a in r.attempts && r.attempts[a].jobId in r.jobs && AttemptsExpired(r, s, r.order, now)
    requires forall id :: id in r.order <==> id in r.jobs
    requires Abandoned(r, r.attempts[a].jobId, now) <==> LeaseLapsed(r.jobs[r.attempts[a].jobId], now)
    ensures a in s.attempts && AttemptSeen(r, a, s.attempts[a], now)
  {
    hide Abandoned;
  }

  lemma ExpiredKeys(r: Repo, s: Repo, now: Time)
    requires AttemptsExpired(r, s, r.order, now)
    ensures s.attempts.Keys == r.attempts.Keys
  {
    hide LapsedUnder;
  }

  lemma AttemptsWithNew(r: Repo, s: Repo, r': Repo, lease: Option<Lease>, worker: string, leaseFor: Time, now: Time)
    requires s.attempts.Keys == r.attempts.Keys && r.nextId <= s.nextId
    requires forall a | a in r.attempts :: AttemptSeen(r, a, s.attempts[a], now)
    requires forall a | a in r.attempts ::
        a < r.nextId && r.attempts[a].token < r.nextId && r.attempts[a].jobId in r.jobs
    requires NewAttempt(s, r', lease, worker, leaseFor, now)
    requires forall id | id in s.jobs :: id in r.jobs && s.jobs[id].attemptCount == r.jobs[id].attemptCount
    requires lease.Some? ==> lease.value.worker == worker && lease.value.leasedUntil == now + leaseFor
    ensures ClaimAttempts(r, r', lease, worker, leaseFor, now)
  {
    hide Abandoned, Ends;
  }

  lemma ClaimComposes(r: Repo, worker: string, leaseFor: Time, kinds: Option<set<string>>, now: Time)
    requires Inv(r) && Backed(r) && worker != "" && leaseFor > 0
    requires forall id | id in r.order :: id in r.jobs
    requires Inv(Claim(r, worker, leaseFor, kinds, now).repo)
    requires var s := ExpireAll(r, r.order, now);
      var claimed := ClaimFirst(s, Eligible(s, kinds, now), worker, leaseFor, now);
      Claim(r, worker, leaseFor, kinds, now) == Outcome(claimed.0, Ok(claimed.1))
    requires var s := ExpireAll(r, r.order, now); var o := Claim(r, worker, leaseFor, kinds, now);
      && o.result.Ok?
      && (o.result.value.Some? ==>
            && FirstLeased(s, o.repo, o.result.value.value, kinds, now)
            && o.result.value.value.worker == worker && o.result.value.value.leasedUntil == now + leaseFor)
      && (o.result.value.None? ==> NoneLeft(s, o.repo, kinds, now))
    ensures var o := Claim(r, worker, leaseFor, kinds, now); var lease := o.result.value;
      && (lease.None? ==> forall id | Ready(r, id, kinds, now) :: !InTime(r.jobs[id], now))
      && (lease.Some? ==> Chosen(r, lease.value.jobId, kinds, now))
      && o.repo.jobs.Keys == r.jobs.Keys
      && (forall id | id in r.jobs :: ClaimMakes(r, id, o.repo.jobs[id], lease, kinds, now))
      && (forall id | id in r.jobs :: !Abandoned(o.repo, id, now))
      && ClaimAttempts(r, o.repo, lease, worker, leaseFor, now) && SameStore(r, o.repo)
  {
    hide *;
    var s, o := ExpireAll(r, r.order, now), Claim(r, worker, leaseFor, kinds, now);
    var r', lease := o.repo, o.result.value;
    ExpireAllExact(r, r.order, now);
    ExpireAllSafe(r, r.order, now);
    EligibleExact(s, kinds, now);
    ClaimFirstKeeps(s, Eligible(s, kinds, now), worker, leaseFor, now);
    KeysSame(r, s, r', lease, worker, now);
    forall id | id in r.jobs
      ensures id in s.jobs && SeenFrom(r, s, id, kinds, now)
    {
      SettledSeen(r, s, id, kinds, now);
    }
    forall id | id in r.jobs
      ensures ClaimMakes(r, id, r'.jobs[id], lease, kinds, now) && !Abandoned(r', id, now)
      ensures lease.None? && Ready(r, id, kinds, now) ==> !InTime(r.jobs[id], now)
    {
      if lease.Some? {
        LeasedKnown(s, r', lease.value, kinds, now);
        LeasedMakes(r, s, r', id, lease.value, kinds, now);
      } else {
        NoneMakes(r, s, r', id, kinds, now);
      }
      NotAbandoned(r, r', id, lease, kinds, now);
    }
    ReadyKnown(r, kinds, now);
    if lease.Some? { ChosenOne(r, s, r', lease.value, kinds, now); }
    SameCounts(r, s, kinds, now);
    AttemptsSeen(r, s, r', lease, worker, leaseFor, now);
  }

  lemma KeysSame(r: Repo, s: Repo, r': Repo, lease: Option<Lease>, worker: string, now: Time)
    requires JobsExpired(r, s, r.order, now) && SameStore(r, s) && OnlyClaimed(s, r', lease, worker, now)
    ensures s.jobs.Keys == r.jobs.Keys == r'.jobs.Keys && SameStore(r, r')
  {
  }

  lemma LeasedKnown(s: Repo, r': Repo, l: Lease, kinds: Option<set<string>>, now: Time)
    requires FirstLeased(s, r', l, kinds, now)
    ensures l.jobId in s.jobs && l.jobId in r'.jobs
  {
  }

  lemma ReadyKnown(r: Repo, kinds: Option<set<string>>, now: Time)
    ensures forall id | Ready(r, id, kinds, now) :: id in r.jobs
  {
  }

  lemma ChosenOne(r: Repo, s: Repo, r': Repo, l: Lease, kinds: Option<set<string>>, now: Time)
    requires s.jobs.Keys == r.jobs.Keys == r'.jobs.Keys && FirstLeased(s, r', l, kinds, now)
    requires forall id | id in r.jobs :: SeenFrom(r, s, id, kinds, now)
    ensures Chosen(r, l.jobId, kinds, now)
  {
    hide SeenFrom, FirstLeased, Ready, InTime, Precedes;
    LeasedKnown(s, r', l, kinds, now);
    ReadyKnown(r, kinds, now);
    LeasedMakes(r, s, r', l.jobId, l, kinds, now);
    forall other | Ready(r, other, kinds, now) && InTime(r.jobs[other], now) && other != l.jobId
      ensures Precedes(r.jobs[l.jobId], r.jobs[other], now)
    {
      LeasedMakes(r, s, r', other, l, kinds, now);
    }
  }

  lemma SameCounts(r: Repo, s: Repo, kinds: Option<set<string>>, now: Time)
    requires s.jobs.Keys == r.jobs.Keys && forall id | id in r.jobs :: SeenFrom(r, s, id, kinds, now)
    ensures forall id | id in s.jobs :: id in r.jobs && s.jobs[id].attemptCount == r.jobs[id].attemptCount
  {
    hide Abandoned, Ready, Released, Claimable;
  }

  lemma ClaimRefused(r: Repo, worker: string, leaseFor: Time, kinds: Option<set<string>>, now: Time)
    requires Backed(r) && (worker == "" || leaseFor <= 0)
    ensures Claim(r, worker, leaseFor, kinds, now) == Outcome(r, Err(InvalidArgument))
  {
    hide Backed;
  }

  // ----- claims: what is reported -----

  /** The report that a lease on this job has run out. */
  ghost predicate ReportsLapse(r: Repo, e: Event, id: Id, now: Time) {
    && Abandoned(r, id, now) && r.jobs[id].lease.Some?
    && e == Event(e.id, r.jobs[id].spec.caseId, JobAggregate(id), e.body, now, None)
    && exists job' :: Released(r.jobs[id], job', now)
                      && e.body == JobMoved(job'.state, r.jobs[id].lease.value.attemptId, "lease_expired")
  }

  /** Events were appended, one for each lapsed lease among these jobs. */
  ghost predicate LapsesReported(r: Repo, s: Repo, ids: seq<Id>, now: Time) {
    && r.outbox <= s.outbox
    && (forall k | |r.outbox| <= k < |s.outbox| ::
          s.outbox[k].aggregate.JobAggregate? && s.outbox[k].aggregate.id in ids
          && ReportsLapse(r, s.outbox[k], s.outbox[k].aggregate.id, now))
    && (forall id | id in ids && Abandoned(r, id, now) :: Told(r.outbox, s.outbox, id))
    && (forall j, k | |r.outbox| <= j < k < |s.outbox| :: s.outbox[j].aggregate != s.outbox[k].aggregate)
  }

  ghost predicate Told(before: seq<Event>, after: seq<Event>, id: Id) {
    exists k :: |before| <= k < |after| && after[k].aggregate == JobAggregate(id)
  }

  lemma {:induction false} ExpireAllReports(r: Repo, ids: seq<Id>, now: Time)
    requires Inv(r) && Backed(r) && forall id | id in ids :: id in r.jobs
    ensures LapsesReported(r, ExpireAll(r, ids, now), ids, now)
    decreases |ids|
  {
    hide Inv, Backed, ExpireLease, LapsesReported;
    if ids == [] {
      NothingReported(r, now);
    } else {
      assert ids[0] in ids;
      ExpireLeaseSafe(r, ids[0], now);
      ExpireLeaseBacked(r, ids[0], now);
      var next := ExpireLease(r, ids[0], now);
      ExpireAllReports(next, ids[1..], now);
      OneReport(r, ids[0], now);
      forall id | id in r.jobs && id != ids[0] ensures id in next.jobs && next.jobs[id] == r.jobs[id] {
        OthersStay(r, ids[0], id, now);
      }
      ReportedMore(r, next, ExpireAll(next, ids[1..], now), ids, now);
    }
  }

  lemma NothingReported(r: Repo, now: Time)
    ensures LapsesReported(r, r, [], now)
  {
  }

  lemma OthersStay(r: Repo, id: Id, other: Id, now: Time)
    requires Backed(r) && id in r.jobs && other in r.jobs && other != id
    ensures other in ExpireLease(r, id, now).jobs && ExpireLease(r, id, now).jobs[other] == r.jobs[other]
  {
  }

  lemma OneReport(r: Repo, id: Id, now: Time)
    requires Inv(r) && Backed(r) && id in r.jobs
    ensures var next := ExpireLease(r, id, now);
      && !Abandoned(next, id, now)
      && if !Abandoned(r, id, now) then next == r
         else
           && |next.outbox| == |r.outbox| + 1 && r.outbox <= next.outbox
           && next.outbox[|r.outbox|].aggregate == JobAggregate(id)
           && ReportsLapse(r, next.outbox[|r.outbox|], id, now)
  {
    hide Inv, Backed, Abandoned;
    AbandonedExactly(r, id, now);
    ExpireLeaseSafe(r, id, now);
    AbandonedExactly(ExpireLease(r, id, now), id, now);
    ExpiredIsReleased(r.jobs[id], now);
    hide Released;
  }

  lemma ReportedMore(r: Repo, next: Repo, s: Repo, ids: seq<Id>, now: Time)
    requires ids != [] && LapsesReported(next, s, ids[1..], now) && !Abandoned(next, ids[0], now)
    requires forall id | id in ids :: id in r.jobs
    requires forall id | id in r.jobs && id != ids[0] :: id in next.jobs && next.jobs[id] == r.jobs[id]
    requires if !Abandoned(r, ids[0], now) then next == r
             else
               && |next.outbox| == |r.outbox| + 1 && r.outbox <= next.outbox
               && next.outbox[|r.outbox|].aggregate == JobAggregate(ids[0])
               && ReportsLapse(r, next.outbox[|r.outbox|], ids[0], now)
    ensures LapsesReported(r, s, ids, now)
  {
    hide ReportsLapse;
    assert forall id :: id in ids <==> id == ids[0] || id in ids[1..];
    forall id | id in ids && id != ids[0] ensures Abandoned(next, id, now) <==> Abandoned(r, id, now) {
      SameAbandoned(r, next, id, now);
    }
    hide Abandoned;
    forall k | |next.outbox| <= k < |s.outbox|
      ensures s.outbox[k].aggregate.JobAggregate? && s.outbox[k].aggregate.id in ids
      ensures s.outbox[k].aggregate.id != ids[0] && ReportsLapse(r, s.outbox[k], s.outbox[k].aggregate.id, now)
    {
      ReportedBefore(r, next, s.outbox[k], ids[0], s.outbox[k].aggregate.id, now);
    }
    forall id | id in ids && Abandoned(r, id, now) ensures Told(r.outbox, s.outbox, id) {
      if id == ids[0] {
        assert s.outbox[|r.outbox|] == next.outbox[|r.outbox|];
      } else {
        assert Told(next.outbox, s.outbox, id);
      }
    }
  }

  lemma SameAbandoned(r: Repo, next: Repo, id: Id, now: Time)
    requires id in r.jobs && id in next.jobs && next.jobs[id] == r.jobs[id]
    ensures Abandoned(next, id, now) <==> Abandoned(r, id, now)
  {
    forall token ensures Holds(next, id, token, now) <==> Holds(r, id, token, now) {}
  }

  lemma ReportedBefore(r: Repo, next: Repo, e: Event, first: Id, id: Id, now: Time)
    requires ReportsLapse(next, e, id, now) && !Abandoned(next, first, now)
    requires id in r.jobs && (id != first ==> id in next.jobs && next.jobs[id] == r.jobs[id])
    ensures id != first && ReportsLapse(r, e, id, now)
  {
    assert id != first;
    SameAbandoned(r, next, id, now);
    hide Abandoned, Released;
  }

  /** What a claim reports: every lease that had run out, once each, and the lease that it gave out. */
  lemma ClaimReports(r: Repo, worker: string, leaseFor: Time, kinds: Option<set<string>>, now: Time)
    requires Inv(r) && Backed(r) && worker != "" && leaseFor > 0
    ensures var o := Claim(r, worker, leaseFor, kinds, now);
      && o.result.Ok?
      && exists s: Repo :: LapsesReported(r, s, r.order, now)
           && match o.result.value
              case None => o.repo.outbox == s.outbox
              case Some(l) =>
                && l.jobId in r.jobs && |o.repo.outbox| == |s.outbox| + 1 && s.outbox <= o.repo.outbox
                && var e := o.repo.outbox[|s.outbox|];
                   e == Event(e.id, r.jobs[l.jobId].spec.caseId, JobAggregate(l.jobId),
                              JobClaimed(l.attemptId, l.number, worker), now, None)
  {
    hide *;
    OrderKnown(r);
    var s := ExpireAll(r, r.order, now);
    ExpireAllReports(r, r.order, now);
    ExpireAllSafe(r, r.order, now);
    EligibleExact(s, kinds, now);
    ClaimUnfolds(r, worker, leaseFor, kinds, now);
    ClaimFirstKeeps(s, Eligible(s, kinds, now), worker, leaseFor, now);
    ExpireAllExact(r, r.order, now);
    SpecsSame(r, s, now);
    var o := Claim(r, worker, leaseFor, kinds, now);
    ClaimTold(r, s, o.repo, o.result.value, worker, now);
  }

  lemma SpecsSame(r: Repo, s: Repo, now: Time)
    requires JobsExpired(r, s, r.order, now)
    ensures s.jobs.Keys == r.jobs.Keys && forall id | id in r.jobs :: s.jobs[id].spec == r.jobs[id].spec
  {
  }

  lemma ClaimTold(r: Repo, s: Repo, r': Repo, lease: Option<Lease>, worker: string, now: Time)
    requires OnlyClaimed(s, r', lease, worker, now)
    requires s.jobs.Keys == r.jobs.Keys && forall id | id in r.jobs :: s.jobs[id].spec == r.jobs[id].spec
    ensures match lease
            case None => r'.outbox == s.outbox
            case Some(l) =>
              && l.jobId in r.jobs && |r'.outbox| == |s.outbox| + 1 && s.outbox <= r'.outbox
              && var e := r'.outbox[|s.outbox|];
                 e == Event(e.id, r.jobs[l.jobId].spec.caseId, JobAggregate(l.jobId),
                            JobClaimed(l.attemptId, l.number, worker), now, None)
  {
  }

  /** For example: a job is submitted at 0 and leased at 1 until 11, and its worker is not heard of again.
      At 20 another worker gets it, for its second attempt, until 30. */
  lemma HandoverExample()
    ensures var r := FromEmpty(ExampleCalls());
      && Backed(r) && var o := Claim(r, "other", 10, None, 20);
      && o.result.Ok? && o.result.value.Some? && var l := o.result.value.value;
      && l.jobId == 0 && l.number == 2 && l.worker == "other"
      && 0 in o.repo.jobs && o.repo.jobs[0].attemptCount == 2 && o.repo.jobs[0].lease == Some(l) && l.leasedUntil == 30
  {
    hide Inv, Backed, Step, FromEmpty, Claim, ExampleCalls;
    var r := FromEmpty(ExampleCalls());
    ExampleRun();
    ExampleClaimed();
    ExampleIsSafe();
    HandedOver(r);
  }

  lemma ExampleIsSafe()
    ensures Inv(FromEmpty(ExampleCalls()))
  {
    hide Inv, Run, Empty;
    EmptyInv();
  }

  lemma HandedOver(r: Repo)
    requires Inv(r) && Backed(r) && r.jobs.Keys == {0} && r.jobs[0].state.Running?
    requires r.jobs[0].lease.Some? && r.jobs[0].lease.value.leasedUntil == 11 && r.jobs[0].attemptCount == 1
    requires r.jobs[0].spec.maxAttempts == 2 && r.jobs[0].cancelRequestedAt.None? && r.jobs[0].spec.deadline.None?
    ensures var o := Claim(r, "other", 10, None, 20);
      && o.result.Ok? && o.result.value.Some? && var l := o.result.value.value;
      && l.jobId == 0 && l.number == 2 && l.worker == "other"
      && 0 in o.repo.jobs && o.repo.jobs[0].attemptCount == 2 && o.repo.jobs[0].lease == Some(l) && l.leasedUntil == 30
  {
    hide Inv, Backed, Claim, Released, Abandoned;
    AbandonedExactly(r, 0, 20);
    ClaimTakesTheFirst(r, "other", 10, None, 20);
    assert Ready(r, 0, None, 20) && InTime(r.jobs[0], 20);
  }

  // ----- corrections -----

  /** The publication depends on the corrected item, or on the exact generation of one that is in the set. */
  ghost predicate DependsOn(pubs: map<Id, Publication>, caseId: string, dep: DependencyRef, reached: set<Id>, id: Id) {
    && id in pubs && pubs[id].caseId == caseId
    && (dep in pubs[id].dependencies
        || exists q :: q in reached && q in pubs && PublicationRef(pubs[q]) in pubs[id].dependencies)
  }

  ghost function AffectedSet(pubs: map<Id, Publication>, caseId: string, dep: DependencyRef): set<Id> {
    set id | id in pubs && Affected(pubs, caseId, dep, id)
  }

  /** The affected publications are the least set of publications of the case that holds whatever depends on
      the corrected item or on a member of it. */
  lemma AffectedIsLeast(pubs: map<Id, Publication>, caseId: string, dep: DependencyRef, closed: set<Id>)
    ensures var s := AffectedSet(pubs, caseId, dep);
      && (forall id :: id in s <==> DependsOn(pubs, caseId, dep, s, id))
      && ((forall id | DependsOn(pubs, caseId, dep, closed, id) :: id in closed) ==> s <= closed)
  {
    hide Affected;
    var s := AffectedSet(pubs, caseId, dep);
    forall id ensures id in s <==> DependsOn(pubs, caseId, dep, s, id) {
      if DependsOn(pubs, caseId, dep, s, id) { AffectedIsClosed(pubs, caseId, dep, id); }
      if id in s { AffectedDepends(pubs, caseId, dep, s, id); }
    }
    if forall id | DependsOn(pubs, caseId, dep, closed, id) :: id in closed {
      forall id | id in s ensures id in closed { AffectedWithin(pubs, caseId, dep, closed, id); }
    }
  }

  lemma AffectedDepends(pubs: map<Id, Publication>, caseId: string, dep: DependencyRef, s: set<Id>, id: Id)
    requires Affected(pubs, caseId, dep, id) && s == AffectedSet(pubs, caseId, dep)
    ensures DependsOn(pubs, caseId, dep, s, id)
  {
    var path :| PathTo(pubs, caseId, dep, path, id);
    if |path| > 1 {
      var q := path[|path| - 2];
      assert PathTo(pubs, caseId, dep, path[..|path| - 1], q);
      assert Affected(pubs, caseId, dep, q);
    }
  }

  lemma AffectedWithin(pubs: map<Id, Publication>, caseId: string, dep: DependencyRef, closed: set<Id>, id: Id)
    requires Affected(pubs, caseId, dep, id) && forall x | DependsOn(pubs, caseId, dep, closed, x) :: x in closed
    ensures id in closed
  {
    var path :| PathTo(pubs, caseId, dep, path, id);
    PathWithin(pubs, caseId, dep, closed, path);
  }

  lemma {:induction false} PathWithin(pubs: map<Id, Publication>, caseId: string, dep: DependencyRef, closed: set<Id>,
        path: seq<Id>)
    requires IsPath(pubs, caseId, dep, path) && forall x | DependsOn(pubs, caseId, dep, closed, x) :: x in closed
    ensures path[|path| - 1] in closed
    decreases |path|
  {
    var id := path[|path| - 1];
    if |path| > 1 {
      PathWithin(pubs, caseId, dep, closed, path[..|path| - 1]);
      assert path[|path| - 2] in closed;
    }
    assert DependsOn(pubs, caseId, dep, closed, id);
  }

  /** A correction marks exactly the affected publications as stale, and overwrites no earlier mark. */
  lemma CorrectionMarksExactly(r: Repo, caseId: string, correctionId: string, dep: DependencyRef, now: Time, id: Id)
    requires ImpactsOf(r.impacts, caseId, correctionId) == [] && id in r.publications
    ensures var o := RecordCorrection(r, caseId, correctionId, dep, now); var p := r.publications[id];
      && o.repo.publications.Keys == r.publications.Keys
      && o.repo.publications[id] ==
         if id !in AffectedSet(r.publications, caseId, dep) then p
         else p.(state := Stale, staleAt := if p.staleAt.Some? then p.staleAt else Some(now),
                 staleReason := if p.staleReason.Some? then p.staleReason else Some("correction:" + correctionId))
  {
    hide Affected, Recorded, ExactImpact, RecordCorrection;
    CorrectionIsExact(r, caseId, correctionId, dep, now);
  }
}
