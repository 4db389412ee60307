/** Every operation keeps the invariant, and changes only what it may: the repository grows.
    Terminal jobs, finished attempts, publications, receipts and impacts are never rewritten. */
module JobSteps {
  import opened Basics
  import opened JobTypes
  import opened Correction
  import opened JobOperations
  import opened JobInvariant

  // ----- what may change -----

  ghost predicate JobsGrow(a: map<Id, Job>, b: map<Id, Job>) {
    forall id | id in a ::
      && id in b && b[id].spec == a[id].spec && b[id].createdAt == a[id].createdAt
      && a[id].attemptCount <= b[id].attemptCount
      && (a[id].state.Terminal() ==> b[id] == a[id])
      && (a[id].cancelRequestedAt.Some? ==> b[id].cancelRequestedAt == a[id].cancelRequestedAt)
  }

  ghost predicate StagedGrow(attempts: map<Id, Attempt>, a: map<Id, map<string, StagedOutput>>,
        b: map<Id, map<string, StagedOutput>>) {
    && (forall i, name | i in a && name in a[i] :: i in b && name in b[i] && b[i][name] == a[i][name])
    && (forall i | i in attempts && attempts[i].finishedAt.Some? ::
          (i in a <==> i in b) && (i in a ==> b[i] == a[i]))
  }

  ghost predicate PublicationsGrow(a: map<Id, Publication>, b: map<Id, Publication>) {
    forall p | p in a ::
      && p in b && Identity(b[p]) == Identity(a[p])
      && (a[p].state.Stale? ==> b[p] == a[p])
  }

  ghost predicate ReceiptsGrow(a: map<(Id, string), Publication>, b: map<(Id, string), Publication>) {
    forall k | k in a :: k in b && b[k] == a[k]
  }

  ghost predicate KeysGrow(a: map<(string, string), Id>, b: map<(string, string), Id>) {
    forall k | k in a :: k in b && b[k] == a[k]
  }

  ghost predicate EventKept(e: Event, f: Event) {
    f == e || (e.dispatchedAt.None? && f.dispatchedAt.Some? && f.(dispatchedAt := None) == e)
  }

  ghost predicate OutboxGrows(a: seq<Event>, b: seq<Event>) {
    |a| <= |b| && forall k | 0 <= k < |a| :: EventKept(a[k], b[k])
  }

  ghost predicate Grows(a: Repo, b: Repo) {
    && a.nextId <= b.nextId
    && a.order <= b.order
    && JobsGrow(a.jobs, b.jobs)
    && AttemptsGrow(a.attempts, b.attempts)
    && StagedGrow(a.attempts, a.staged, b.staged)
    && PublicationsGrow(a.publications, b.publications)
    && ReceiptsGrow(a.receipts, b.receipts)
    && KeysGrow(a.idempotency, b.idempotency)
    && a.impacts <= b.impacts
    && OutboxGrows(a.outbox, b.outbox)
  }

  lemma JobsGrowTransitive(a: map<Id, Job>, b: map<Id, Job>, c: map<Id, Job>)
    requires JobsGrow(a, b) && JobsGrow(b, c)
    ensures JobsGrow(a, c)
  {
  }

  lemma StagedGrowTransitive(at: map<Id, Attempt>, bt: map<Id, Attempt>, a: map<Id, map<string, StagedOutput>>,
        b: map<Id, map<string, StagedOutput>>, c: map<Id, map<string, StagedOutput>>)
    requires AttemptsGrow(at, bt) && StagedGrow(at, a, b) && StagedGrow(bt, b, c)
    ensures StagedGrow(at, a, c)
  {
  }

  lemma GrowsTransitive(a: Repo, b: Repo, c: Repo)
    requires Grows(a, b) && Grows(b, c)
    ensures Grows(a, c)
  {
    hide JobsGrow, StagedGrow;
    JobsGrowTransitive(a.jobs, b.jobs, c.jobs);
    StagedGrowTransitive(a.attempts, b.attempts, a.staged, b.staged, c.staged);
  }

  lemma GrowsReflexive(a: Repo)
    ensures Grows(a, a)
  {
  }

  /** The common shape of a step on jobs and attempts: the store stays as it is. */
  ghost predicate WorkStep(r: Repo, r': Repo) {
    && Work(r'.jobs, r'.order, r'.attempts, r'.nextId)
    && r'.order == r.order
    && r'.staged == r.staged && r'.publications == r.publications && r'.current == r.current
    && r'.receipts == r.receipts && r'.idempotency == r.idempotency && r'.impacts == r.impacts
    && AttemptsGrow(r.attempts, r'.attempts) && JobsKeepIdentity(r.jobs, r'.jobs) && JobsGrow(r.jobs, r'.jobs)
    && QuietOutbox(r, r')
  }

  lemma WorkStepSafe(r: Repo, r': Repo)
    requires Inv(r) && WorkStep(r, r')
    ensures Inv(r') && Grows(r, r')
  {
    hide Work, Store, JobsGrow, AttemptsGrow, JobsKeepIdentity;
    StoreKept(r, r');
    if r'.outbox != r.outbox {
      var e: Event :| r'.outbox == r.outbox + [e] && !e.body.PublicationCommitted? && r.nextId <= e.id < r'.nextId;
      assert forall k | 0 <= k < |r.outbox| :: r'.outbox[k] == r.outbox[k];
    }
  }

  /** `outbox + [e]` is a quiet outbox. */
  lemma Quiet(r: Repo, r': Repo, e: Event)
    requires r'.outbox == r.outbox + [e] && !e.body.PublicationCommitted? && r.nextId <= e.id < r'.nextId
    ensures QuietOutbox(r, r')
  {
  }

  lemma InvJob(r: Repo, id: Id)
    requires Inv(r) && id in r.jobs
    ensures Backed(r) && JobOk(r.jobs[id]) && r.jobs[id].id == id && LeaseBacked(r.jobs[id], r.attempts)
  {
    InvBacked(r);
  }

  /** A successor of a job that keeps what jobs must keep. */
  ghost predicate JobEvolves(job: Job, job': Job) {
    && job'.id == job.id && job'.spec == job.spec && job'.createdAt == job.createdAt
    && job'.publicationId == job.publicationId
    && job.attemptCount <= job'.attemptCount
    && !job.state.Terminal()
    && (job.cancelRequestedAt.Some? ==> job'.cancelRequestedAt == job.cancelRequestedAt)
  }

  /** Everything but jobs, attempts, the outbox and the id counter. */
  ghost predicate SameStore(r: Repo, r': Repo) {
    && r'.order == r.order
    && r'.staged == r.staged && r'.publications == r.publications && r'.current == r.current
    && r'.receipts == r.receipts && r'.idempotency == r.idempotency && r'.impacts == r.impacts
  }

  lemma JobPutGrows(jobs: map<Id, Job>, job': Job)
    requires job'.id in jobs && JobEvolves(jobs[job'.id], job')
    ensures JobsGrow(jobs, jobs[job'.id := job']) && JobsKeepIdentity(jobs, jobs[job'.id := job'])
  {
  }

  /** The running attempt of a job ends without a publication. */
  lemma CloseSafe(r: Repo, r': Repo, job': Job, now: Time, outcome: AttemptOutcome)
    requires Inv(r) && job'.id in r.jobs && r.jobs[job'.id].lease.Some?
    requires JobEvolves(r.jobs[job'.id], job') && JobOk(job') && job'.lease.None?
    requires job'.attemptCount == r.jobs[job'.id].attemptCount
    requires SameStore(r, r') && QuietOutbox(r, r')
    requires r'.jobs == r.jobs[job'.id := job']
    requires var a := r.jobs[job'.id].lease.value.attemptId;
             a in r.attempts && r'.attempts == r.attempts[a := Finished(r.attempts[a], now, outcome)]
    ensures Inv(r') && Grows(r, r')
  {
    hide JobOk, Work, Store, JobsGrow, JobsKeepIdentity, Grows, LeaseBacked;
    OpenAttempt(r, job'.id);
    EndAttempt(r.jobs, r.order, r.attempts, r.nextId, job', now, outcome, r'.nextId);
    JobPutGrows(r.jobs, job');
    WorkStepSafe(r, r');
  }

  /** A job changes, its attempts do not. */
  lemma TouchSafe(r: Repo, r': Repo, job': Job)
    requires Inv(r) && job'.id in r.jobs
    requires JobEvolves(r.jobs[job'.id], job') && JobOk(job') && job'.lease == r.jobs[job'.id].lease
    requires job'.attemptCount == r.jobs[job'.id].attemptCount
    requires SameStore(r, r') && QuietOutbox(r, r')
    requires r'.jobs == r.jobs[job'.id := job'] && r'.attempts == r.attempts
    ensures Inv(r') && Grows(r, r')
  {
    assert WorkStep(r, r') by {
      hide JobOk, Work, Store, JobsGrow, JobsKeepIdentity;
      TouchJob(r.jobs, r.order, r.attempts, r.nextId, job', r'.nextId);
      JobPutGrows(r.jobs, job');
    }
    WorkStepSafe(r, r');
  }

  lemma OpenAttempt(r: Repo, id: Id)
    requires Inv(r) && id in r.jobs && r.jobs[id].lease.Some?
    ensures var a := r.jobs[id].lease.value.attemptId;
            a in r.attempts && r.attempts[a].finishedAt.None? && r.attempts[a].jobId == id
  {
    hide Store, Numbered, AttemptsDistinct, JobOk, AttemptOk;
    assert LeaseBacked(r.jobs[id], r.attempts);
  }

  // ----- lease expiry -----

  lemma ExpireLeaseSafe(r: Repo, id: Id, now: Time)
    requires Inv(r) && id in r.jobs
    ensures Backed(r)
    ensures Inv(ExpireLease(r, id, now)) && Grows(r, ExpireLease(r, id, now))
    ensures ExpireLease(r, id, now).order == r.order
  {
    hide Inv, Grows, LeaseBacked, QuietOutbox;
    InvJob(r, id);
    var r' := ExpireLease(r, id, now);
    var job := r.jobs[id];
    if LeaseLapsed(job, now) {
      Quiet(r, r', r'.outbox[|r.outbox|]);
      CloseSafe(r, r', ExpiredJob(job, now), now, LeaseExpired);
    } else {
      GrowsReflexive(r);
    }
  }

  lemma {:induction false} ExpireAllSafe(r: Repo, ids: seq<Id>, now: Time)
    requires Inv(r) && Backed(r) && forall id | id in ids :: id in r.jobs
    ensures Inv(ExpireAll(r, ids, now)) && Grows(r, ExpireAll(r, ids, now))
    ensures ExpireAll(r, ids, now).order == r.order
    decreases |ids|
  {
    hide Inv, Grows, ExpireLease;
    if ids == [] {
      GrowsReflexive(r);
    } else {
      assert ids[0] in ids;
      ExpireLeaseSafe(r, ids[0], now);
      ExpireLeaseBacked(r, ids[0], now);
      var next := ExpireLease(r, ids[0], now);
      ExpireAllSafe(next, ids[1..], now);
      GrowsTransitive(r, next, ExpireAll(next, ids[1..], now));
    }
  }

  lemma SettleSafe(r: Repo, jobId: Id, now: Time)
    requires Inv(r)
    ensures Backed(r) && Inv(Settle(r, jobId, now)) && Grows(r, Settle(r, jobId, now))
  {
    hide Inv, Grows, ExpireLease;
    InvBacked(r);
    if jobId in r.jobs {
      ExpireLeaseSafe(r, jobId, now);
    } else {
      GrowsReflexive(r);
    }
  }

  // ----- claiming -----

  /** A list of distinct waiting jobs as they stand in the repository. */
  ghost predicate WaitingList(r: Repo, list: seq<Job>) {
    && (forall k | 0 <= k < |list| ::
          list[k].id in r.jobs && r.jobs[list[k].id] == list[k] && list[k].state.Waiting())
    && DistinctIds(list)
  }

  ghost predicate DistinctIds(list: seq<Job>) {
    forall i, j | 0 <= i < j < |list| :: list[i].id != list[j].id
  }

  lemma {:induction false} ClaimableInMembers(r: Repo, ids: seq<Id>, kinds: Option<set<string>>, now: Time)
    requires Backed(r) && forall id | id in ids :: id in r.jobs
    ensures forall j :: j in ClaimableIn(r, ids, kinds, now) <==>
              j.id in ids && j.id in r.jobs && r.jobs[j.id] == j && Claimable(j, kinds, now)
    decreases |ids|
  {
    if ids != [] {
      hide Claimable;
      assert ids[0] in ids && r.jobs[ids[0]].id == ids[0];
      ClaimableInMembers(r, ids[1..], kinds, now);
      assert forall id :: id in ids <==> id == ids[0] || id in ids[1..];
    }
  }

  lemma {:induction false} ClaimableInDistinct(r: Repo, ids: seq<Id>, kinds: Option<set<string>>, now: Time)
    requires Backed(r) && NoDuplicates(ids) && forall id | id in ids :: id in r.jobs
    ensures DistinctIds(ClaimableIn(r, ids, kinds, now))
    decreases |ids|
  {
    if ids != [] {
      hide Claimable;
      assert ids[0] in ids && r.jobs[ids[0]].id == ids[0];
      ClaimableInDistinct(r, ids[1..], kinds, now);
      ClaimableInMembers(r, ids[1..], kinds, now);
      var first, rest := r.jobs[ids[0]], ClaimableIn(r, ids[1..], kinds, now);
      assert ids[0] !in ids[1..];
      hide DistinctIds, NoDuplicates;
      forall j | 0 <= j < |rest| ensures rest[j].id != first.id {
        assert rest[j] in rest;
      }
      PrependDistinct(first, rest);
    }
  }

  lemma PrependDistinct(first: Job, rest: seq<Job>)
    requires DistinctIds(rest)
    requires forall j | 0 <= j < |rest| :: rest[j].id != first.id
    ensures DistinctIds([first] + rest)
  {
  }

  lemma WaitingListOf(r: Repo, list: seq<Job>, sorted: seq<Job>)
    requires multiset(list) == multiset(sorted)
    requires DistinctIds(list)
    requires forall j | j in list :: j.id in r.jobs && r.jobs[j.id] == j && j.state.Waiting()
    ensures WaitingList(r, sorted)
  {
    SameElements(list, sorted);
    assert NoDuplicates(list);
    NoDuplicatesCount(list);
    NoDuplicatesCount(sorted);
    forall k | 0 <= k < |sorted|
      ensures sorted[k].id in r.jobs && r.jobs[sorted[k].id] == sorted[k] && sorted[k].state.Waiting()
    {
      assert sorted[k] in list;
    }
  }

  lemma ClaimOrderTotal()
    ensures TotalOrder(ClaimOrder)
  {
  }

  /** The eligible jobs: every claimable one, once, in the order of availability. */
  lemma EligibleExact(r: Repo, kinds: Option<set<string>>, now: Time)
    requires Inv(r)
    ensures Backed(r) && WaitingList(r, Eligible(r, kinds, now))
    ensures Sorted(Eligible(r, kinds, now), ClaimOrder)
    ensures forall j ::
        j in Eligible(r, kinds, now) <==> j.id in r.jobs && r.jobs[j.id] == j && Claimable(j, kinds, now)
  {
    hide *;
    EligibleMembers(r, kinds, now);
    EligibleSorted(r, kinds, now);
  }

  lemma EligibleMembers(r: Repo, kinds: Option<set<string>>, now: Time)
    requires Inv(r)
    ensures Backed(r) && WaitingList(r, Eligible(r, kinds, now))
    ensures forall j ::
        j in Eligible(r, kinds, now) <==> j.id in r.jobs && r.jobs[j.id] == j && Claimable(j, kinds, now)
  {
    hide Inv, NoDuplicates, ClaimOrder, WaitingList, DistinctIds, SortBy;
    InvBacked(r);
    OrderDistinct(r);
    var list := ClaimableIn(r, r.order, kinds, now);
    ClaimableInMembers(r, r.order, kinds, now);
    ClaimableInDistinct(r, r.order, kinds, now);
    hide Backed, ClaimableIn;
    SameElements(list, Eligible(r, kinds, now));
    WaitingListOf(r, list, Eligible(r, kinds, now));
  }

  lemma EligibleSorted(r: Repo, kinds: Option<set<string>>, now: Time)
    requires Inv(r)
    ensures Backed(r) && Sorted(Eligible(r, kinds, now), ClaimOrder)
  {
    InvBacked(r);
    hide Inv, Sorted, TotalOrder, Backed, ClaimableIn;
    ClaimOrderTotal();
    SortIsSorted(ClaimableIn(r, r.order, kinds, now), ClaimOrder);
  }

  lemma OrderDistinct(r: Repo)
    requires Inv(r)
    ensures NoDuplicates(r.order) && forall id :: id in r.order <==> id in r.jobs
  {
    hide Store, JobOk, LeaseBacked, AttemptsOk, AttemptsDistinct, Numbered;
  }

  /** What starting an attempt makes of the job, and the attempt it adds. */
  function StartedJob(r: Repo, job: Job, worker: string, leaseFor: Time, now: Time): Job {
    var lease := LeaseFor(r, job, worker, leaseFor, now);
    job.(state := Running, attemptCount := lease.number, lease := Some(lease), updatedAt := now)
  }

  function StartedAttempt(r: Repo, job: Job, worker: string, leaseFor: Time, now: Time): Attempt {
    var lease := LeaseFor(r, job, worker, leaseFor, now);
    Attempt(lease.attemptId, job.id, lease.number, worker, lease.token, now, lease.leasedUntil, None, None)
  }

  lemma StartShape(r: Repo, job: Job, worker: string, leaseFor: Time, now: Time)
    ensures var r' := StartAttempt(r, job, worker, leaseFor, now);
            var job', a := StartedJob(r, job, worker, leaseFor, now), StartedAttempt(r, job, worker, leaseFor, now);
            && job'.id == job.id && a.id == r.nextId && r'.nextId >= r.nextId + 2
            && r'.jobs == r.jobs[job.id := job'] && r'.attempts == r.attempts[a.id := a] && r'.order == r.order
            && r'.staged == r.staged && r'.publications == r.publications && r'.current == r.current
            && r'.receipts == r.receipts && r'.idempotency == r.idempotency && r'.impacts == r.impacts
  {
  }

  lemma StartQuiet(r: Repo, job: Job, worker: string, leaseFor: Time, now: Time)
    ensures QuietOutbox(r, StartAttempt(r, job, worker, leaseFor, now))
  {
    var r' := StartAttempt(r, job, worker, leaseFor, now);
    Quiet(r, r', r'.outbox[|r.outbox|]);
  }

  lemma StartWork(r: Repo, job: Job, worker: string, leaseFor: Time, now: Time)
    requires Inv(r) && job.id in r.jobs && r.jobs[job.id] == job && job.state.Waiting()
    requires !job.spec.DeadlinePassed(now)
    ensures var r' := StartAttempt(r, job, worker, leaseFor, now); Work(r'.jobs, r'.order, r'.attempts, r'.nextId)
  {
    hide Store, Work, StartAttempt, LeaseBacked;
    InvJob(r, job.id);
    StartShape(r, job, worker, leaseFor, now);
    var r' := StartAttempt(r, job, worker, leaseFor, now);
    BeginAttempt(r.jobs, r.order, r.attempts, r.nextId, StartedJob(r, job, worker, leaseFor, now),
                 StartedAttempt(r, job, worker, leaseFor, now), r'.nextId);
  }

  lemma StartGrows(r: Repo, job: Job, worker: string, leaseFor: Time, now: Time)
    requires Inv(r) && job.id in r.jobs && r.jobs[job.id] == job && job.state.Waiting()
    requires !job.spec.DeadlinePassed(now)
    ensures var job' := StartedJob(r, job, worker, leaseFor, now); JobsGrow(r.jobs, r.jobs[job.id := job'])
    ensures var job' := StartedJob(r, job, worker, leaseFor, now); JobsKeepIdentity(r.jobs, r.jobs[job.id := job'])
    ensures var a := StartedAttempt(r, job, worker, leaseFor, now); AttemptsGrow(r.attempts, r.attempts[a.id := a])
  {
    hide Inv, JobsGrow, AttemptsGrow, LeaseBacked;
    InvJob(r, job.id);
    JobPutGrows(r.jobs, StartedJob(r, job, worker, leaseFor, now));
    FreshAttemptGrows(r, StartedAttempt(r, job, worker, leaseFor, now));
  }

  lemma StartAttemptSafe(r: Repo, job: Job, worker: string, leaseFor: Time, now: Time)
    requires Inv(r) && job.id in r.jobs && r.jobs[job.id] == job && job.state.Waiting()
    requires !job.spec.DeadlinePassed(now)
    ensures Inv(StartAttempt(r, job, worker, leaseFor, now)) && Grows(r, StartAttempt(r, job, worker, leaseFor, now))
  {
    hide Inv, Grows, Work, StartAttempt, StartedJob, StartedAttempt, JobsGrow, AttemptsGrow, JobsKeepIdentity;
    hide QuietOutbox;
    StartShape(r, job, worker, leaseFor, now);
    StartQuiet(r, job, worker, leaseFor, now);
    StartWork(r, job, worker, leaseFor, now);
    StartGrows(r, job, worker, leaseFor, now);
    WorkStepSafe(r, StartAttempt(r, job, worker, leaseFor, now));
  }

  lemma FreshAttemptGrows(r: Repo, a: Attempt)
    requires Inv(r) && a.id == r.nextId
    ensures AttemptsGrow(r.attempts, r.attempts[a.id := a])
  {
    hide Store, Numbered, AttemptsDistinct, JobsOk, AttemptOk, LeaseBacked;
  }

  lemma DeadlineFailSafe(r: Repo, job: Job, now: Time)
    requires Inv(r) && job.id in r.jobs && r.jobs[job.id] == job && job.state.Waiting()
    ensures var r' := PutJob(r, DeadlineFailed(job, now));
            Inv(r') && Grows(r, r')
  {
    hide Inv, Grows, LeaseBacked;
    InvJob(r, job.id);
    TouchSafe(r, PutJob(r, DeadlineFailed(job, now)), DeadlineFailed(job, now));
  }

  /** Failing the first of the waiting jobs for its deadline leaves the others waiting. */
  lemma WaitingRest(r: Repo, list: seq<Job>, now: Time)
    requires WaitingList(r, list) && list != []
    ensures list[0].id in r.jobs && r.jobs[list[0].id] == list[0] && list[0].state.Waiting()
    ensures WaitingList(PutJob(r, DeadlineFailed(list[0], now)), list[1..])
  {
    var next := PutJob(r, DeadlineFailed(list[0], now));
    forall k | 0 <= k < |list[1..]|
      ensures list[1..][k].id in next.jobs && next.jobs[list[1..][k].id] == list[1..][k]
    {
      assert list[0].id != list[k + 1].id;
    }
  }

  lemma {:induction false} ClaimFirstSafe(r: Repo, eligible: seq<Job>, worker: string, leaseFor: Time, now: Time)
    requires Inv(r) && WaitingList(r, eligible)
    ensures var r' := ClaimFirst(r, eligible, worker, leaseFor, now).0;
            Inv(r') && Grows(r, r')
    decreases |eligible|
  {
    hide Inv, Grows, StartAttempt;
    if eligible == [] {
      GrowsReflexive(r);
    } else if eligible[0].spec.DeadlinePassed(now) {
      DeadlineFailSafe(r, eligible[0], now);
      var next := PutJob(r, DeadlineFailed(eligible[0], now));
      WaitingRest(r, eligible, now);
      ClaimFirstSafe(next, eligible[1..], worker, leaseFor, now);
      GrowsTransitive(r, next, ClaimFirst(next, eligible[1..], worker, leaseFor, now).0);
    } else {
      StartAttemptSafe(r, eligible[0], worker, leaseFor, now);
    }
  }

  lemma OrderKnown(r: Repo)
    requires Backed(r)
    ensures forall id | id in r.order :: id in r.jobs
  {
  }

  lemma ClaimSafe(r: Repo, worker: string, leaseFor: Time, kinds: Option<set<string>>, now: Time)
    requires Inv(r)
    ensures Backed(r) && Inv(Claim(r, worker, leaseFor, kinds, now).repo)
    ensures Grows(r, Claim(r, worker, leaseFor, kinds, now).repo)
  {
    InvBacked(r);
    hide Inv, Grows, ClaimFirst, Eligible, ExpireAll, Backed;
    if worker == "" || leaseFor <= 0 {
      GrowsReflexive(r);
    } else {
      OrderKnown(r);
      ExpireAllSafe(r, r.order, now);
      var settled := ExpireAll(r, r.order, now);
      EligibleExact(settled, kinds, now);
      ClaimFirstSafe(settled, Eligible(settled, kinds, now), worker, leaseFor, now);
      GrowsTransitive(r, settled, ClaimFirst(settled, Eligible(settled, kinds, now), worker, leaseFor, now).0);
    }
  }

  // ----- operations of the lease holder, after the expiry prelude -----

  lemma HeartbeatSafe(r: Repo, jobId: Id, token: Id, leaseFor: Time, now: Time)
    requires Inv(r)
    ensures Backed(r) && Inv(Heartbeat(r, jobId, token, leaseFor, now).repo)
    ensures Grows(r, Heartbeat(r, jobId, token, leaseFor, now).repo)
  {
    hide Inv, Grows, Settle, LeaseCheck;
    SettleSafe(r, jobId, now);
    GrowsReflexive(r);
    var s := Settle(r, jobId, now);
    if leaseFor > 0 && LeaseCheck(s, jobId, token).Ok? {
      var s' := Heartbeat(r, jobId, token, leaseFor, now).repo;
      RenewSafe(s, s', jobId, now + leaseFor, now);
      GrowsTransitive(r, s, s');
    }
  }

  lemma RenewSafe(r: Repo, r': Repo, id: Id, until: Time, now: Time)
    requires Inv(r) && id in r.jobs && r.jobs[id].lease.Some? && r.jobs[id].lease.value.attemptId in r.attempts
    requires r.jobs[id].state.Running?
    requires var l := r.jobs[id].lease.value;
             && r'.jobs == r.jobs[id := r.jobs[id].(lease := Some(l.(leasedUntil := until)), updatedAt := now)]
             && r'.attempts == r.attempts[l.attemptId := r.attempts[l.attemptId].(leasedUntil := until)]
    requires SameStore(r, r') && r'.outbox == r.outbox && r'.nextId == r.nextId
    ensures Inv(r') && Grows(r, r')
  {
    hide JobOk, Work, Store, JobsGrow, JobsKeepIdentity, Grows, LeaseBacked, Backed;
    OpenAttempt(r, id);
    InvJob(r, id);
    RenewLease(r.jobs, r.order, r.attempts, r.nextId, id, until, now);
    JobPutGrows(r.jobs, r'.jobs[id]);
    WorkStepSafe(r, r');
  }

  lemma RequestCancelSafe(r: Repo, jobId: Id, reason: string, now: Time)
    requires Inv(r)
    ensures Backed(r) && Inv(RequestCancel(r, jobId, reason, now).repo)
    ensures Grows(r, RequestCancel(r, jobId, reason, now).repo)
  {
    hide Inv, Grows, Settle, QuietOutbox, LeaseBacked;
    SettleSafe(r, jobId, now);
    var s := Settle(r, jobId, now);
    if jobId in s.jobs && !s.jobs[jobId].state.Terminal() {
      InvJob(s, jobId);
      var o := RequestCancel(r, jobId, reason, now);
      Quiet(s, o.repo, o.repo.outbox[|s.outbox|]);
      TouchSafe(s, o.repo, o.result.value);
      GrowsTransitive(r, s, o.repo);
    }
  }

  lemma AcknowledgeCancelSafe(r: Repo, jobId: Id, token: Id, now: Time)
    requires Inv(r)
    ensures Backed(r) && Inv(AcknowledgeCancel(r, jobId, token, now).repo)
    ensures Grows(r, AcknowledgeCancel(r, jobId, token, now).repo)
  {
    hide Inv, Grows, Settle, LeaseBacked;
    SettleSafe(r, jobId, now);
    var s := Settle(r, jobId, now);
    var o := AcknowledgeCancel(r, jobId, token, now);
    if o.result.Ok? {
      InvJob(s, jobId);
      CloseSafe(s, o.repo, o.result.value, now, AttemptCancelled);
      GrowsTransitive(r, s, o.repo);
    }
  }

  lemma FailSafe(r: Repo, jobId: Id, token: Id, reason: string, retryDelay: Time, now: Time)
    requires Inv(r)
    ensures Backed(r) && Inv(Fail(r, jobId, token, reason, retryDelay, now).repo)
    ensures Grows(r, Fail(r, jobId, token, reason, retryDelay, now).repo)
  {
    hide Inv, Grows, Settle, LeaseBacked, QuietOutbox;
    SettleSafe(r, jobId, now);
    GrowsReflexive(r);
    var s := Settle(r, jobId, now);
    var o := Fail(r, jobId, token, reason, retryDelay, now);
    if o.result.Ok? {
      InvJob(s, jobId);
      Quiet(s, o.repo, o.repo.outbox[|s.outbox|]);
      CloseSafe(s, o.repo, o.result.value, now, AttemptFailedTo(o.result.value.state));
      GrowsTransitive(r, s, o.repo);
    }
  }

  lemma StageSafe(r: Repo, jobId: Id, token: Id, name: string, objectUri: string, contentDigest: string,
        metadata: string, now: Time)
    requires Inv(r)
    ensures Backed(r) && Inv(StageOutput(r, jobId, token, name, objectUri, contentDigest, metadata, now).repo)
    ensures Grows(r, StageOutput(r, jobId, token, name, objectUri, contentDigest, metadata, now).repo)
  {
    hide Inv, Grows, Settle, LeaseBacked;
    SettleSafe(r, jobId, now);
    GrowsReflexive(r);
    var s := Settle(r, jobId, now);
    var s' := StageOutput(r, jobId, token, name, objectUri, contentDigest, metadata, now).repo;
    if s' != r && s' != s {
      var lease := s.jobs[jobId].lease.value;
      InvJob(s, jobId);
      OpenAttempt(s, jobId);
      var output := StagedOutput(s.nextId, jobId, lease.attemptId, name, objectUri, contentDigest, metadata, now);
      AddStagedSafe(s, jobId, output);
      GrowsTransitive(r, s, s');
    }
  }

  /** One more output staged for the running attempt of a job. */
  lemma AddStagedSafe(r: Repo, jobId: Id, o: StagedOutput)
    requires Inv(r) && jobId in r.jobs && r.jobs[jobId].lease.Some?
    requires o.attemptId == r.jobs[jobId].lease.value.attemptId && o.jobId == jobId
    requires o.name !in StagedFor(r, o.attemptId)
    ensures var r' := r.(staged := r.staged[o.attemptId := StagedFor(r, o.attemptId)[o.name := o]],
        nextId := r.nextId + 1);
            Inv(r') && Grows(r, r')
  {
    hide JobOk, LeaseBacked, Backed, Work, HistoryOk, ReceiptsOk, IdempotencyOk, EventsOk, PublishedOk, OutputsOk;
    hide StagedOk;
    var staged := r.staged[o.attemptId := StagedFor(r, o.attemptId)[o.name := o]];
    var r' := r.(staged := staged, nextId := r.nextId + 1);
    InvJob(r, jobId);
    OpenAttempt(r, jobId);
    WorkMonotone(r.jobs, r.order, r.attempts, r.nextId, r'.nextId);
    StagedKept(r, jobId, o);
    LaterIds(r, r'.nextId);
    assert JobsGrow(r.jobs, r.jobs) && AttemptsGrow(r.attempts, r.attempts);
  }

  lemma StagedKept(r: Repo, jobId: Id, o: StagedOutput)
    requires StagedOk(r.attempts, r.staged) && OutputsOk(r.attempts, r.staged, r.publications)
    requires o.attemptId in r.attempts && r.attempts[o.attemptId].finishedAt.None?
    requires r.attempts[o.attemptId].jobId == o.jobId
    ensures var staged := r.staged[o.attemptId := StagedFor(r, o.attemptId)[o.name := o]];
            StagedOk(r.attempts, staged) && OutputsOk(r.attempts, staged, r.publications)
  {
  }

  lemma LaterIds(r: Repo, nextId: Id)
    requires r.nextId <= nextId
    ensures PublishedOk(r.jobs, r.publications, r.nextId) ==> PublishedOk(r.jobs, r.publications, nextId)
    ensures EventsOk(r.publications, r.outbox, r.nextId) ==> EventsOk(r.publications, r.outbox, nextId)
  {
    hide HasCommit, Commits, StaleOk;
  }

  // ----- submission -----

  lemma SubmitSafe(r: Repo, spec: JobSpec, now: Time)
    requires Inv(r)
    ensures Backed(r) && Inv(Submit(r, spec, now).repo) && Grows(r, Submit(r, spec, now).repo)
  {
    hide JobOk, LeaseBacked, Work, Store, Grows, Backed, JobAdded, Submit;
    InvBacked(r);
    GrowsReflexive(r);
    var r' := Submit(r, spec, now).repo;
    SubmitAdds(r, spec, now);
    if r' != r {
      AddJob(r.jobs, r.order, r.attempts, r.nextId, spec, now);
      AddJobStore(r, r', spec, now);
      AddJobGrows(r, r', spec, now);
      assert Work(r'.jobs, r'.order, r'.attempts, r'.nextId) by { AddedParts(r, r', spec, now); }
    }
  }

  lemma SubmitAdds(r: Repo, spec: JobSpec, now: Time)
    requires Backed(r)
    ensures var r' := Submit(r, spec, now).repo;
            r' != r ==> JobAdded(r, r', spec, now) && KeyOfSpec(spec) !in r.idempotency && spec.WellFormed()
  {
    hide Backed;
  }

  lemma AddedParts(r: Repo, r': Repo, spec: JobSpec, now: Time)
    requires JobAdded(r, r', spec, now)
    ensures r'.jobs == r.jobs[r.nextId := NewJob(r.nextId, spec, now)] && r'.order == r.order + [r.nextId]
    ensures r'.attempts == r.attempts && r'.nextId == r.nextId + 2
  {
  }

  lemma NextIdFresh(r: Repo)
    requires Inv(r)
    ensures r.nextId !in r.jobs && r.nextId !in r.attempts && r.nextId !in r.publications
  {
    hide JobOk, LeaseBacked, AttemptOk, StagedOk, OutputsOk, HistoryOk, ReceiptsOk, EventsOk, IdempotencyOk, Numbered;
    hide AttemptsDistinct, StaleOk, NoDuplicates;
  }

  ghost predicate JobAdded(r: Repo, r': Repo, spec: JobSpec, now: Time) {
    && r'.jobs == r.jobs[r.nextId := NewJob(r.nextId, spec, now)] && r'.order == r.order + [r.nextId]
    && r'.idempotency == r.idempotency[KeyOfSpec(spec) := r.nextId]
    && r'.attempts == r.attempts && r'.staged == r.staged && r'.publications == r.publications
    && r'.current == r.current && r'.receipts == r.receipts && r'.impacts == r.impacts
    && r'.nextId == r.nextId + 2
    && |r'.outbox| == |r.outbox| + 1
    && r'.outbox == r.outbox + [r'.outbox[|r.outbox|]]
    && !r'.outbox[|r.outbox|].body.PublicationCommitted? && r'.outbox[|r.outbox|].id == r.nextId + 1
  }

  lemma AddJobStore(r: Repo, r': Repo, spec: JobSpec, now: Time)
    requires Inv(r) && JobAdded(r, r', spec, now) && KeyOfSpec(spec) !in r.idempotency
    ensures Store(r')
  {
    hide Work, OutputsOk, HistoryOk, ReceiptsOk, StagedOk, EventsOk, StaleOk, PublishedOk, IdempotencyOk;
    NextIdFresh(r);
    AddJobPublished(r.jobs, r.publications, r.nextId, NewJob(r.nextId, spec, now), r'.nextId);
    AddJobIdempotency(r.jobs, r.idempotency, NewJob(r.nextId, spec, now));
    QuietEvent(r.publications, r.outbox, r.nextId, r'.outbox[|r.outbox|], r'.nextId);
  }

  lemma AddJobPublished(jobs: map<Id, Job>, pubs: map<Id, Publication>, nextId: Id, job: Job, nextId': Id)
    requires PublishedOk(jobs, pubs, nextId) && job.id !in jobs && job.publicationId.None? && nextId <= nextId'
    ensures PublishedOk(jobs[job.id := job], pubs, nextId')
  {
    hide StaleOk;
  }

  lemma AddJobIdempotency(jobs: map<Id, Job>, idempotency: map<(string, string), Id>, job: Job)
    requires IdempotencyOk(jobs, idempotency) && job.id !in jobs && KeyOfSpec(job.spec) !in idempotency
    ensures IdempotencyOk(jobs[job.id := job], idempotency[KeyOfSpec(job.spec) := job.id])
  {
    hide KeyOfSpec;
  }

  lemma AddJobGrows(r: Repo, r': Repo, spec: JobSpec, now: Time)
    requires Inv(r) && JobAdded(r, r', spec, now) && KeyOfSpec(spec) !in r.idempotency
    ensures Grows(r, r')
  {
    hide Inv, AttemptsGrow, StagedGrow, PublicationsGrow, ReceiptsGrow, OutboxGrows;
    NextIdFresh(r);
    GrowsReflexive(r);
    OutboxAppended(r.outbox, r'.outbox[|r.outbox|]);
  }

  lemma OutboxAppended(outbox: seq<Event>, e: Event)
    ensures OutboxGrows(outbox, outbox + [e])
  {
  }

  // ----- publication -----

  lemma AddHead(pubs: map<Id, Publication>, current: map<(string, string), Id>, p: Publication)
    requires HistoryOk(pubs, current) && p.id !in pubs
    requires var k := KeyOf(p);
             && p.supersedes == (if k in current then Some(current[k]) else None)
             && p.generation == (if k in current then pubs[current[k]].generation + 1 else 1)
    ensures HistoryOk(pubs[p.id := p], current[KeyOf(p) := p.id])
  {
    AddHeadLinks(pubs, current, p);
    AddHeadUnique(pubs, current, p);
    AddHeadHeads(pubs, current, p);
    hide *;
    assert HistoryOk(pubs[p.id := p], current[KeyOf(p) := p.id]) by {
      HistoryOf(pubs[p.id := p], current[KeyOf(p) := p.id]);
    }
  }

  lemma HistoryOf(pubs: map<Id, Publication>, current: map<(string, string), Id>)
    requires LinksOk(pubs) && UniqueGenerations(pubs) && HeadsOk(pubs, current)
    ensures HistoryOk(pubs, current)
  {
    hide LinksOk, UniqueGenerations, HeadsOk;
  }

  lemma AddHeadHeads(pubs: map<Id, Publication>, current: map<(string, string), Id>, p: Publication)
    requires HeadsOk(pubs, current) && p.id !in pubs
    requires KeyOf(p) in current ==> p.generation > pubs[current[KeyOf(p)]].generation
    ensures HeadsOk(pubs[p.id := p], current[KeyOf(p) := p.id])
  {
    hide KeyOf;
  }

  lemma AddHeadUnique(pubs: map<Id, Publication>, current: map<(string, string), Id>, p: Publication)
    requires UniqueGenerations(pubs) && HeadsOk(pubs, current) && p.id !in pubs
    requires KeyOf(p) in current ==> p.generation > pubs[current[KeyOf(p)]].generation
    ensures UniqueGenerations(pubs[p.id := p])
  {
    forall q | q in pubs && KeyOf(pubs[q]) == KeyOf(p) ensures pubs[q].generation < p.generation {
      assert KeyOf(pubs[q]) in current;
    }
    hide HeadsOk, KeyOf;
  }

  lemma AddHeadLinks(pubs: map<Id, Publication>, current: map<(string, string), Id>, p: Publication)
    requires HistoryOk(pubs, current) && p.id !in pubs
    requires var k := KeyOf(p);
             && p.supersedes == (if k in current then Some(current[k]) else None)
             && p.generation == (if k in current then pubs[current[k]].generation + 1 else 1)
    ensures LinksOk(pubs[p.id := p])
  {
    hide UniqueGenerations;
    var pubs' := pubs[p.id := p];
    assert KeyOf(p) in current ==> LinkedOk(pubs, pubs[current[KeyOf(p)]]);
    forall q | q in pubs' ensures LinkedOk(pubs', pubs'[q]) {
      if q != p.id { assert LinkedOk(pubs, pubs[q]); }
    }
  }

  lemma AddReceipt(pubs: map<Id, Publication>, receipts: map<(Id, string), Publication>, p: Publication, key: string)
    requires ReceiptsOk(pubs, receipts) && p.id !in pubs && (p.jobId, key) !in receipts && p == Identity(p)
    ensures ReceiptsOk(pubs[p.id := p], receipts[(p.jobId, key) := p])
  {
    var pubs', receipts' := pubs[p.id := p], receipts[(p.jobId, key) := p];
    forall q | q in pubs' ensures HasReceipt(receipts', q) {
      if q == p.id {
        assert receipts'[(p.jobId, key)].id == q;
      } else {
        assert HasReceipt(receipts, q);
        var k :| k in receipts && receipts[k].id == q;
        assert receipts'[k] == receipts[k];
      }
    }
  }

  lemma AddCommit(pubs: map<Id, Publication>, outbox: seq<Event>, nextId: Id, p: Publication, e: Event, nextId': Id)
    requires EventsOk(pubs, outbox, nextId) && p.id !in pubs
    requires nextId <= e.id < nextId' && Commits(e, p)
    ensures EventsOk(pubs[p.id := p], outbox + [e], nextId')
  {
    var pubs', outbox' := pubs[p.id := p], outbox + [e];
    forall q | q in pubs' ensures HasCommit(outbox', pubs'[q]) {
      if q == p.id {
        assert Commits(outbox'[|outbox|], p);
      } else {
        CommitKept(outbox, e, pubs[q]);
      }
    }
  }

  lemma AddPublished(jobs: map<Id, Job>, pubs: map<Id, Publication>, nextId: Id, job': Job, p: Publication, nextId': Id)
    requires PublishedOk(jobs, pubs, nextId) && nextId <= p.id < nextId' && p.id !in pubs && StaleOk(p)
    requires job'.id in jobs && jobs[job'.id].publicationId.None? && job'.spec == jobs[job'.id].spec
    requires job'.publicationId == Some(p.id) && p.jobId == job'.id && p.caseId == job'.spec.caseId
    ensures PublishedOk(jobs[job'.id := job'], pubs[p.id := p], nextId')
  {
    hide StaleOk;
  }

  lemma AddOutputs(attempts: map<Id, Attempt>, staged: map<Id, map<string, StagedOutput>>, pubs: map<Id, Publication>,
        p: Publication, now: Time)
    requires OutputsOk(attempts, staged, pubs) && StagedOk(attempts, staged)
    requires p.attemptId in attempts && attempts[p.attemptId].jobId == p.jobId && attempts[p.attemptId].finishedAt.None?
    requires p.attemptId in staged && p.outputs == staged[p.attemptId] && p.outputs != map[]
    ensures var attempts' := attempts[p.attemptId := Finished(attempts[p.attemptId], now, AttemptSucceeded)];
            OutputsOk(attempts', staged, pubs[p.id := p]) && StagedOk(attempts', staged)
  {
  }

  lemma KeepIdempotency(jobs: map<Id, Job>, idempotency: map<(string, string), Id>, job': Job)
    requires IdempotencyOk(jobs, idempotency) && job'.id in jobs && job'.spec == jobs[job'.id].spec
    ensures IdempotencyOk(jobs[job'.id := job'], idempotency)
  {
  }

  /** What a commit is made of, whichever job and attempt it ends. */
  ghost predicate Committing(r: Repo, job: Job, lease: Lease, p: Publication) {
    && Inv(r) && Backed(r)
    && job.id in r.jobs && r.jobs[job.id] == job && job.lease == Some(lease) && job.state.Running?
    && job.cancelRequestedAt.None?
    && StagedFor(r, lease.attemptId) != map[]
    && exists resultKey, deps, now :: p == NextPublication(r, job, lease, resultKey, deps, now)
  }

  lemma CommitFacts(r: Repo, job: Job, lease: Lease, p: Publication)
    requires Committing(r, job, lease, p)
    ensures lease.attemptId in r.attempts && r.attempts[lease.attemptId].finishedAt.None?
    ensures r.attempts[lease.attemptId].jobId == job.id && lease.attemptId in r.staged
    ensures JobOk(job) && job.publicationId.None?
    ensures p.id == r.nextId && p.id !in r.publications && p.jobId == job.id && p.attemptId == lease.attemptId
    ensures p.caseId == job.spec.caseId && p.outputs == r.staged[lease.attemptId] && p.outputs != map[]
    ensures StaleOk(p) && p == Identity(p)
    ensures var k := KeyOf(p);
            && (k in r.current ==> r.current[k] in r.publications)
            && p.supersedes == (if k in r.current then Some(r.current[k]) else None)
            && p.generation == (if k in r.current then r.publications[r.current[k]].generation + 1 else 1)
  {
    hide Inv, LeaseBacked;
    OpenAttempt(r, job.id);
    InvJob(r, job.id);
    NextIdFresh(r);
  }

  lemma CommitStore(r: Repo, job: Job, lease: Lease, p: Publication, completionKey: string, now: Time)
    requires Committing(r, job, lease, p) && (job.id, completionKey) !in r.receipts
    ensures lease.attemptId in r.attempts && Store(Commit(r, job, lease, p, completionKey, now))
  {
    hide Work, StagedOk, OutputsOk, PublishedOk, HistoryOk, ReceiptsOk, EventsOk, IdempotencyOk, JobOk, StaleOk, Backed;
    hide NextPublication;
    CommitFacts(r, job, lease, p);
    var r' := Commit(r, job, lease, p, completionKey, now);
    var job' := r'.jobs[job.id];
    AddOutputs(r.attempts, r.staged, r.publications, p, now);
    AddPublished(r.jobs, r.publications, r.nextId, job', p, r'.nextId);
    AddHead(r.publications, r.current, p);
    AddReceipt(r.publications, r.receipts, p, completionKey);
    AddCommit(r.publications, r.outbox, r.nextId, p, r'.outbox[|r.outbox|], r'.nextId);
    KeepIdempotency(r.jobs, r.idempotency, job');
  }

  lemma CommitWork(r: Repo, job: Job, lease: Lease, p: Publication, completionKey: string, now: Time)
    requires Committing(r, job, lease, p)
    ensures lease.attemptId in r.attempts
    ensures var r' := Commit(r, job, lease, p, completionKey, now);
            Work(r'.jobs, r'.order, r'.attempts, r'.nextId)
  {
    hide Work, Store, Backed, NextPublication, StaleOk;
    CommitFacts(r, job, lease, p);
    var r' := Commit(r, job, lease, p, completionKey, now);
    EndAttempt(r.jobs, r.order, r.attempts, r.nextId, r'.jobs[job.id], now, AttemptSucceeded, r'.nextId);
  }

  lemma FinishGrows(attempts: map<Id, Attempt>, id: Id, now: Time)
    requires id in attempts && attempts[id].finishedAt.None?
    ensures AttemptsGrow(attempts, attempts[id := Finished(attempts[id], now, AttemptSucceeded)])
  {
  }

  lemma CommitShape(r: Repo, job: Job, lease: Lease, p: Publication, completionKey: string, now: Time)
    requires lease.attemptId in r.attempts
    ensures var r' := Commit(r, job, lease, p, completionKey, now);
            && r'.nextId >= r.nextId && r'.order == r.order && r'.staged == r.staged
            && r'.idempotency == r.idempotency && r'.impacts == r.impacts
            && r'.jobs == r.jobs[job.id := CommittedJob(job, p, now)]
            && r'.attempts
               == r.attempts[lease.attemptId := Finished(r.attempts[lease.attemptId], now, AttemptSucceeded)]
            && r'.publications == r.publications[p.id := p]
            && r'.receipts == r.receipts[(job.id, completionKey) := p]
            && exists e :: r'.outbox == r.outbox + [e]
  {
    var r' := Commit(r, job, lease, p, completionKey, now);
    assert r'.outbox == r.outbox + [r'.outbox[|r.outbox|]];
  }

  lemma CommittedJobGrows(jobs: map<Id, Job>, job: Job, p: Publication, now: Time)
    requires job.id in jobs && jobs[job.id] == job && job.state.Running?
    ensures JobsGrow(jobs, jobs[job.id := CommittedJob(job, p, now)])
  {
  }

  lemma FreshResultGrows(r: Repo, p: Publication, key: (Id, string))
    requires p.id !in r.publications && key !in r.receipts
    ensures PublicationsGrow(r.publications, r.publications[p.id := p])
        && ReceiptsGrow(r.receipts, r.receipts[key := p])
  {
  }

  lemma CommitGrows(r: Repo, job: Job, lease: Lease, p: Publication, completionKey: string, now: Time)
    requires Committing(r, job, lease, p) && (job.id, completionKey) !in r.receipts
    ensures lease.attemptId in r.attempts && Grows(r, Commit(r, job, lease, p, completionKey, now))
  {
    hide Inv, Backed, NextPublication, StaleOk, JobOk, Commit, CommittedJob, StagedGrow, KeysGrow, OutboxGrows;
    hide AttemptsGrow, JobsGrow, PublicationsGrow, ReceiptsGrow;
    CommitFacts(r, job, lease, p);
    CommitShape(r, job, lease, p, completionKey, now);
    var r' := Commit(r, job, lease, p, completionKey, now);
    GrowsReflexive(r);
    FinishGrows(r.attempts, lease.attemptId, now);
    CommittedJobGrows(r.jobs, job, p, now);
    FreshResultGrows(r, p, (job.id, completionKey));
    var e: Event :| r'.outbox == r.outbox + [e];
    OutboxAppended(r.outbox, e);
  }

  lemma CompleteSafe(r: Repo, jobId: Id, token: Id, resultKey: string, dependencies: set<DependencyRef>,
        completionKey: string, now: Time)
    requires Inv(r)
    ensures Backed(r) && Inv(CompleteAndPublish(r, jobId, token, resultKey, dependencies, completionKey, now).repo)
    ensures Grows(r, CompleteAndPublish(r, jobId, token, resultKey, dependencies, completionKey, now).repo)
  {
    hide Work, Store, Grows, Settle, LeaseBacked, Commit, NextPublication;
    SettleSafe(r, jobId, now);
    GrowsReflexive(r);
    var s := Settle(r, jobId, now);
    var o := CompleteAndPublish(r, jobId, token, resultKey, dependencies, completionKey, now);
    if o.repo != r && o.repo != s {
      var job := s.jobs[jobId];
      var lease, p := job.lease.value, o.result.value;
      InvJob(s, jobId);
      SettleKeepsReceipts(r, jobId, now);
      assert p == NextPublication(s, job, lease, resultKey, dependencies, now);
      assert Committing(s, job, lease, p);
      CommitStore(s, job, lease, p, completionKey, now);
      CommitWork(s, job, lease, p, completionKey, now);
      CommitGrows(s, job, lease, p, completionKey, now);
      GrowsTransitive(r, s, o.repo);
    }
  }

  lemma SettleKeepsReceipts(r: Repo, jobId: Id, now: Time)
    requires Backed(r)
    ensures var s := Settle(r, jobId, now);
            && s.receipts == r.receipts && s.publications == r.publications && s.current == r.current
            && s.staged == r.staged && s.idempotency == r.idempotency && s.impacts == r.impacts && s.order == r.order
  {
    hide Backed;
  }

  // ----- corrections and the outbox -----

  ghost predicate OnlyStaler(a: map<Id, Publication>, b: map<Id, Publication>, ctx: Context) {
    a.Keys == b.Keys && forall p | p in a :: b[p] == a[p] || b[p] == MarkStale(a[p], ctx)
  }

  /** The fields that history, receipts and events rest on. */
  ghost predicate SameFacts(a: map<Id, Publication>, b: map<Id, Publication>) {
    a.Keys == b.Keys && forall p | p in a ::
      && b[p].id == a[p].id && b[p].caseId == a[p].caseId && b[p].resultKey == a[p].resultKey
      && b[p].generation == a[p].generation && b[p].jobId == a[p].jobId && b[p].supersedes == a[p].supersedes
      && b[p].attemptId == a[p].attemptId && b[p].outputs == a[p].outputs
      && Identity(b[p]) == Identity(a[p])
  }

  lemma StalerFacts(a: map<Id, Publication>, b: map<Id, Publication>, ctx: Context)
    requires OnlyStaler(a, b, ctx)
    ensures SameFacts(a, b)
  {
  }

  lemma StalerPublications(r: Repo, pubs: map<Id, Publication>, ctx: Context)
    requires OnlyStaler(r.publications, pubs, ctx)
    requires PublishedOk(r.jobs, r.publications, r.nextId)
    ensures PublishedOk(r.jobs, pubs, r.nextId)
    ensures PublicationsGrow(r.publications, pubs)
  {
    StalerFacts(r.publications, pubs, ctx);
  }

  lemma StalerOutputs(r: Repo, pubs: map<Id, Publication>)
    requires SameFacts(r.publications, pubs) && OutputsOk(r.attempts, r.staged, r.publications)
    ensures OutputsOk(r.attempts, r.staged, pubs)
  {
  }

  lemma StalerLinks(a: map<Id, Publication>, b: map<Id, Publication>)
    requires SameFacts(a, b) && LinksOk(a)
    ensures LinksOk(b)
  {
    forall p | p in b ensures LinkedOk(b, b[p]) {
      assert LinkedOk(a, a[p]);
    }
  }

  lemma StalerUnique(a: map<Id, Publication>, b: map<Id, Publication>)
    requires SameFacts(a, b) && UniqueGenerations(a)
    ensures UniqueGenerations(b)
  {
    hide Identity;
    forall p, q | p in b && q in b && p != q && KeyOf(b[p]) == KeyOf(b[q])
      ensures b[p].generation != b[q].generation
    {
      assert KeyOf(a[p]) == KeyOf(a[q]);
    }
  }

  lemma StalerHeads(a: map<Id, Publication>, b: map<Id, Publication>, current: map<(string, string), Id>)
    requires SameFacts(a, b) && HeadsOk(a, current)
    ensures HeadsOk(b, current)
  {
    hide Identity;
    forall p | p in b ensures KeyOf(b[p]) == KeyOf(a[p]) && b[p].generation == a[p].generation {}
    hide KeyOf, SameFacts;
  }

  lemma StalerHistory(a: map<Id, Publication>, b: map<Id, Publication>, current: map<(string, string), Id>)
    requires SameFacts(a, b) && HistoryOk(a, current)
    ensures HistoryOk(b, current)
  {
    hide SameFacts, LinksOk, UniqueGenerations, HeadsOk;
    StalerLinks(a, b);
    StalerUnique(a, b);
    StalerHeads(a, b, current);
  }

  lemma StalerReceipts(a: map<Id, Publication>, b: map<Id, Publication>, receipts: map<(Id, string), Publication>)
    requires SameFacts(a, b) && ReceiptsOk(a, receipts)
    ensures ReceiptsOk(b, receipts)
  {
    hide HasReceipt, Identity;
  }

  lemma StalerEvents(a: map<Id, Publication>, b: map<Id, Publication>, outbox: seq<Event>, nextId: Id)
    requires SameFacts(a, b) && EventsOk(a, outbox, nextId)
    ensures EventsOk(b, outbox, nextId)
  {
    forall e: Event, p | p in a ensures Commits(e, a[p]) <==> Commits(e, b[p]) {}
    forall p | p in b ensures HasCommit(outbox, b[p]) {
      assert HasCommit(outbox, a[p]);
      var k :| 0 <= k < |outbox| && Commits(outbox[k], a[p]);
      assert Commits(outbox[k], b[p]);
    }
    hide HasCommit, Commits, Identity;
  }

  lemma PropagateOnlyStaler(pubs: map<Id, Publication>, dep: DependencyRef, ctx: Context, nextId: Id)
    ensures OnlyStaler(pubs, Propagate(pubs, dep, ctx, nextId).publications, ctx)
  {
    hide Affected, Recorded, ExactImpact, MarkStale, Propagate;
    PropagationIsExact(pubs, dep, ctx, nextId);
  }

  lemma CorrectionStore(r: Repo, caseId: string, correctionId: string, dependency: DependencyRef, now: Time)
    requires Inv(r)
    ensures Inv(RecordCorrection(r, caseId, correctionId, dependency, now).repo)
  {
    hide Work, StagedOk, OutputsOk, PublishedOk, HistoryOk, ReceiptsOk, EventsOk, IdempotencyOk, Propagate;
    hide PublicationsGrow, OnlyStaler;
    var r' := RecordCorrection(r, caseId, correctionId, dependency, now).repo;
    if ImpactsOf(r.impacts, caseId, correctionId) == [] {
      var ctx := Context(caseId, correctionId, now);
      var w := Propagate(r.publications, dependency, ctx, r.nextId);
      PropagateGrows(r.publications, dependency, ctx, r.nextId);
      PropagateOnlyStaler(r.publications, dependency, ctx, r.nextId);
      WorkMonotone(r.jobs, r.order, r.attempts, r.nextId, r'.nextId);
      StalerPublications(r, w.publications, ctx);
      LaterIds(r.(publications := w.publications), r'.nextId);
      StalerFacts(r.publications, w.publications, ctx);
      hide SameFacts;
      StalerOutputs(r, w.publications);
      StalerHistory(r.publications, w.publications, r.current);
      StalerReceipts(r.publications, w.publications, r.receipts);
      StalerEvents(r.publications, w.publications, r.outbox, r.nextId);
      QuietEvent(w.publications, r.outbox, r.nextId, r'.outbox[|r.outbox|], r'.nextId);
    }
  }

  lemma PropagateGrows(pubs: map<Id, Publication>, dep: DependencyRef, ctx: Context, nextId: Id)
    ensures nextId <= Propagate(pubs, dep, ctx, nextId).nextId
  {
  }

  lemma CorrectionSafe(r: Repo, caseId: string, correctionId: string, dependency: DependencyRef, now: Time)
    requires Inv(r)
    ensures Inv(RecordCorrection(r, caseId, correctionId, dependency, now).repo)
    ensures Grows(r, RecordCorrection(r, caseId, correctionId, dependency, now).repo)
  {
    CorrectionStore(r, caseId, correctionId, dependency, now);
    hide Work, OutputsOk, PublishedOk, Propagate, PublicationsGrow, OnlyStaler, StagedOk, HistoryOk, ReceiptsOk;
    hide EventsOk, IdempotencyOk;
    GrowsReflexive(r);
    if ImpactsOf(r.impacts, caseId, correctionId) == [] {
      var ctx := Context(caseId, correctionId, now);
      var r' := RecordCorrection(r, caseId, correctionId, dependency, now).repo;
      PropagateGrows(r.publications, dependency, ctx, r.nextId);
      PropagateOnlyStaler(r.publications, dependency, ctx, r.nextId);
      StalerPublications(r, r'.publications, ctx);
      OutboxAppended(r.outbox, r'.outbox[|r.outbox|]);
      assert r'.outbox == r.outbox + [r'.outbox[|r.outbox|]];
    }
  }

  /** Dispatching changes nothing that identifies an event. */
  predicate Alike(e: Event, f: Event) {
    e.id == f.id && e.caseId == f.caseId && e.aggregate == f.aggregate && e.body == f.body
  }

  ghost predicate OutboxAlike(a: seq<Event>, b: seq<Event>) {
    |a| == |b| && forall k | 0 <= k < |a| :: Alike(a[k], b[k])
  }

  lemma DispatchAlike(outbox: seq<Event>, k: nat, now: Time)
    requires k < |outbox|
    ensures OutboxAlike(outbox, outbox[k := Dispatched(outbox[k], now)])
  {
  }

  lemma CommitAlike(a: seq<Event>, b: seq<Event>, p: Publication)
    requires OutboxAlike(a, b) && HasCommit(a, p)
    ensures HasCommit(b, p)
  {
    var j :| 0 <= j < |a| && Commits(a[j], p);
    assert Commits(b[j], p);
  }

  lemma EventsAlike(pubs: map<Id, Publication>, a: seq<Event>, b: seq<Event>, nextId: Id)
    requires EventsOk(pubs, a, nextId) && OutboxAlike(a, b)
    ensures EventsOk(pubs, b, nextId)
  {
    hide HasCommit;
    forall p | p in pubs ensures HasCommit(b, pubs[p]) { CommitAlike(a, b, pubs[p]); }
    forall k | 0 <= k < |b| ensures Alike(a[k], b[k]) {}
    hide OutboxAlike;
  }

  lemma DispatchEvents(pubs: map<Id, Publication>, outbox: seq<Event>, nextId: Id, k: nat, now: Time)
    requires EventsOk(pubs, outbox, nextId) && k < |outbox|
    ensures EventsOk(pubs, outbox[k := Dispatched(outbox[k], now)], nextId)
  {
    hide *;
    DispatchAlike(outbox, k, now);
    EventsAlike(pubs, outbox, outbox[k := Dispatched(outbox[k], now)], nextId);
  }

  lemma DispatchSafe(r: Repo, eventId: Id, now: Time)
    requires Inv(r)
    ensures Inv(MarkDispatched(r, eventId, now).repo) && Grows(r, MarkDispatched(r, eventId, now).repo)
  {
    hide Work, StagedOk, OutputsOk, PublishedOk, HistoryOk, ReceiptsOk, EventsOk, IdempotencyOk;
    GrowsReflexive(r);
    if HasEvent(r.outbox, eventId) {
      DispatchEvents(r.publications, r.outbox, r.nextId, FirstEvent(r.outbox, eventId), now);
    }
  }

  // ----- every step -----

  /** Whatever the call, its arguments and its clock: the invariant holds afterwards and
      nothing that must last was changed. */
  lemma StepSafe(r: Repo, c: Call)
    requires Inv(r)
    ensures Backed(r) && Inv(Step(r, c)) && Grows(r, Step(r, c))
  {
    hide Inv, Grows, Backed, Submit, Claim, Heartbeat, RequestCancel, AcknowledgeCancel, StageOutput, Fail;
    hide CompleteAndPublish, RecordCorrection, MarkDispatched;
    InvBacked(r);
    match c.op
    case DoSubmit(spec) => SubmitSafe(r, spec, c.now);
    case DoClaim(worker, leaseFor, kinds) => ClaimSafe(r, worker, leaseFor, kinds, c.now);
    case DoHeartbeat(id, token, leaseFor) => HeartbeatSafe(r, id, token, leaseFor, c.now);
    case DoRequestCancel(id, reason) => RequestCancelSafe(r, id, reason, c.now);
    case DoAcknowledgeCancel(id, token) => AcknowledgeCancelSafe(r, id, token, c.now);
    case DoStage(id, token, name, uri, digest, metadata) => StageSafe(r, id, token, name, uri, digest, metadata, c.now);
    case DoFail(id, token, reason, delay) => FailSafe(r, id, token, reason, delay, c.now);
    case DoComplete(id, token, key, dependencies, completion) =>
      CompleteSafe(r, id, token, key, dependencies, completion, c.now);
    case DoCorrect(caseId, correctionId, dependency) => CorrectionSafe(r, caseId, correctionId, dependency, c.now);
    case DoDispatch(eventId) => DispatchSafe(r, eventId, c.now);
  }
}
