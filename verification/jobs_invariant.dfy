/** The invariant of the durable-job repository, in two halves: the work in progress (jobs,
    leases, attempts) and the store (staged outputs, publications, receipts, events). */
module JobInvariant {
  import opened Basics
  import opened JobTypes
  import opened JobOperations

  // ----- work in progress -----

  ghost predicate JobOk(job: Job) {
    && job.spec.WellFormed()
    && (job.state.Running? <==> job.lease.Some?)
    && (job.lease.Some? ==> job.lease.value.jobId == job.id && job.lease.value.number == job.attemptCount)
    && job.attemptCount <= job.spec.maxAttempts
    && (job.state.Queued? ==> job.attemptCount == 0)
    && (job.state.RetryWait? ==> 1 <= job.attemptCount < job.spec.maxAttempts)
    && (job.state.Running? || job.state.Succeeded? ==> 1 <= job.attemptCount)
    && (job.state.Cancelled? ==> job.cancelRequestedAt.Some?)
    && (job.cancelRequestedAt.Some? ==> job.state.Running? || job.state.Cancelled?)
    && (job.state.Succeeded? <==> job.publicationId.Some?)
  }

  ghost predicate JobsOk(jobs: map<Id, Job>, order: seq<Id>, nextId: Id) {
    && (forall id :: id in order <==> id in jobs)
    && NoDuplicates(order)
    && forall id | id in jobs :: jobs[id].id == id && id < nextId && JobOk(jobs[id])
  }

  /** The lease of a running job and its attempt say the same thing, and the attempt is open. */
  ghost predicate LeaseBacked(job: Job, attempts: map<Id, Attempt>) {
    job.lease.Some? ==>
      var l := job.lease.value;
      && l.attemptId in attempts
      && var a := attempts[l.attemptId];
      && a.jobId == job.id && a.number == l.number && a.worker == l.worker && a.token == l.token
      && a.leasedUntil == l.leasedUntil && a.finishedAt.None?
  }

  /** An attempt belongs to a job, is open only while it is that job's lease, and started
      before the job's deadline. */
  ghost predicate AttemptOk(a: Attempt, jobs: map<Id, Job>) {
    && a.jobId in jobs
    && 1 <= a.number <= jobs[a.jobId].attemptCount
    && (a.finishedAt.Some? <==> a.outcome.Some?)
    && (a.finishedAt.None? ==> jobs[a.jobId].lease.Some? && jobs[a.jobId].lease.value.attemptId == a.id)
    && (jobs[a.jobId].spec.deadline.Some? ==> a.startedAt < jobs[a.jobId].spec.deadline.value)
  }

  ghost predicate AttemptsOk(jobs: map<Id, Job>, attempts: map<Id, Attempt>, nextId: Id) {
    forall a | a in attempts ::
      attempts[a].id == a && a < nextId && attempts[a].token < nextId && AttemptOk(attempts[a], jobs)
  }

  ghost predicate AttemptsDistinct(attempts: map<Id, Attempt>) {
    forall a, b | a in attempts && b in attempts && a != b ::
      attempts[a].token != attempts[b].token
      && (attempts[a].jobId == attempts[b].jobId ==> attempts[a].number != attempts[b].number)
  }

  ghost predicate HasAttempt(attempts: map<Id, Attempt>, jobId: Id, n: int) {
    exists a | a in attempts :: attempts[a].jobId == jobId && attempts[a].number == n
  }

  ghost predicate Numbered(jobs: map<Id, Job>, attempts: map<Id, Attempt>) {
    forall id, n | id in jobs && 1 <= n <= jobs[id].attemptCount :: HasAttempt(attempts, id, n)
  }

  ghost predicate Work(jobs: map<Id, Job>, order: seq<Id>, attempts: map<Id, Attempt>, nextId: Id) {
    && JobsOk(jobs, order, nextId)
    && (forall id | id in jobs :: LeaseBacked(jobs[id], attempts))
    && AttemptsOk(jobs, attempts, nextId)
    && AttemptsDistinct(attempts)
    && Numbered(jobs, attempts)
  }

  // ----- the store -----

  ghost predicate StagedOk(attempts: map<Id, Attempt>, staged: map<Id, map<string, StagedOutput>>) {
    forall a, name | a in staged && name in staged[a] ::
      && a in attempts && staged[a][name].name == name
      && staged[a][name].attemptId == a && staged[a][name].jobId == attempts[a].jobId
  }

  ghost predicate StaleOk(p: Publication) {
    && (p.state.Stale? <==> p.staleAt.Some?)
    && (p.state.Stale? <==> p.staleReason.Some?)
  }

  /** Publications and succeeded jobs name each other, one to one. */
  ghost predicate PublishedOk(jobs: map<Id, Job>, pubs: map<Id, Publication>, nextId: Id) {
    && (forall p | p in pubs ::
          && pubs[p].id == p && p < nextId && StaleOk(pubs[p])
          && pubs[p].jobId in jobs && jobs[pubs[p].jobId].publicationId == Some(p)
          && pubs[p].caseId == jobs[pubs[p].jobId].spec.caseId)
    && (forall id | id in jobs && jobs[id].publicationId.Some? ::
          jobs[id].publicationId.value in pubs && pubs[jobs[id].publicationId.value].jobId == id)
  }

  /** What was published is exactly what the job's own successful attempt had staged. */
  ghost predicate OutputsOk(attempts: map<Id, Attempt>, staged: map<Id, map<string, StagedOutput>>,
        pubs: map<Id, Publication>) {
    forall p | p in pubs ::
      && pubs[p].attemptId in attempts
      && attempts[pubs[p].attemptId].jobId == pubs[p].jobId
      && attempts[pubs[p].attemptId].finishedAt.Some?
      && attempts[pubs[p].attemptId].outcome == Some(AttemptSucceeded)
      && pubs[p].attemptId in staged && pubs[p].outputs == staged[pubs[p].attemptId]
      && pubs[p].outputs != map[]
  }

  function KeyOf(p: Publication): (string, string) { (p.caseId, p.resultKey) }

  ghost predicate LinkedOk(pubs: map<Id, Publication>, p: Publication) {
    && p.generation >= 1
    && (p.generation == 1 <==> p.supersedes.None?)
    && (p.supersedes.Some? ==>
          && p.supersedes.value in pubs
          && KeyOf(pubs[p.supersedes.value]) == KeyOf(p)
          && pubs[p.supersedes.value].generation + 1 == p.generation)
  }

  ghost predicate LinksOk(pubs: map<Id, Publication>) {
    forall p | p in pubs :: LinkedOk(pubs, pubs[p])
  }

  ghost predicate UniqueGenerations(pubs: map<Id, Publication>) {
    forall p, q | p in pubs && q in pubs && p != q && KeyOf(pubs[p]) == KeyOf(pubs[q]) ::
      pubs[p].generation != pubs[q].generation
  }

  /** Each key that was ever published has a head, and the head has its highest generation. */
  ghost predicate HeadsOk(pubs: map<Id, Publication>, current: map<(string, string), Id>) {
    && (forall k | k in current :: current[k] in pubs && KeyOf(pubs[current[k]]) == k)
    && (forall p | p in pubs ::
          && KeyOf(pubs[p]) in current && current[KeyOf(pubs[p])] in pubs
          && pubs[p].generation <= pubs[current[KeyOf(pubs[p])]].generation)
  }

  ghost predicate HistoryOk(pubs: map<Id, Publication>, current: map<(string, string), Id>) {
    LinksOk(pubs) && UniqueGenerations(pubs) && HeadsOk(pubs, current)
  }

  ghost predicate HasReceipt(receipts: map<(Id, string), Publication>, p: Id) {
    exists k | k in receipts :: receipts[k].id == p
  }

  /** Receipts and publications correspond one to one; a receipt keeps the state the
      publication had when it was issued. */
  ghost predicate ReceiptsOk(pubs: map<Id, Publication>, receipts: map<(Id, string), Publication>) {
    && (forall k | k in receipts ::
          && receipts[k].id in pubs && receipts[k] == Identity(pubs[receipts[k].id])
          && receipts[k].jobId == k.0)
    && (forall p | p in pubs :: HasReceipt(receipts, p))
    && (forall k, l | k in receipts && l in receipts && k != l :: receipts[k].id != receipts[l].id)
  }

  predicate Commits(e: Event, p: Publication) {
    && e.body == PublicationCommitted(p.jobId, p.resultKey, p.generation)
    && e.aggregate == PublicationAggregate(p.id)
    && e.caseId == p.caseId
  }

  ghost predicate HasCommit(outbox: seq<Event>, p: Publication) {
    exists k | 0 <= k < |outbox| :: Commits(outbox[k], p)
  }

  ghost predicate EventsOk(pubs: map<Id, Publication>, outbox: seq<Event>, nextId: Id) {
    && (forall k | 0 <= k < |outbox| :: outbox[k].id < nextId)
    && (forall j, k | 0 <= j < k < |outbox| :: outbox[j].id != outbox[k].id)
    && (forall k | 0 <= k < |outbox| && outbox[k].body.PublicationCommitted? ::
          outbox[k].aggregate.PublicationAggregate? && outbox[k].aggregate.id in pubs
          && Commits(outbox[k], pubs[outbox[k].aggregate.id]))
    && (forall p | p in pubs :: HasCommit(outbox, pubs[p]))
    && (forall j, k | 0 <= j < k < |outbox| && outbox[j].body.PublicationCommitted?
       && outbox[k].body.PublicationCommitted? ::
          outbox[j].aggregate != outbox[k].aggregate)
  }

  function KeyOfSpec(spec: JobSpec): (string, string) { (spec.caseId, spec.idempotencyKey) }

  ghost predicate IdempotencyOk(jobs: map<Id, Job>, idempotency: map<(string, string), Id>) {
    && (forall k | k in idempotency :: idempotency[k] in jobs && KeyOfSpec(jobs[idempotency[k]].spec) == k)
    && (forall id | id in jobs ::
       KeyOfSpec(jobs[id].spec) in idempotency && idempotency[KeyOfSpec(jobs[id].spec)] == id)
  }

  ghost predicate Store(r: Repo) {
    && StagedOk(r.attempts, r.staged)
    && PublishedOk(r.jobs, r.publications, r.nextId)
    && OutputsOk(r.attempts, r.staged, r.publications)
    && HistoryOk(r.publications, r.current)
    && ReceiptsOk(r.publications, r.receipts)
    && EventsOk(r.publications, r.outbox, r.nextId)
    && IdempotencyOk(r.jobs, r.idempotency)
  }

  ghost predicate Inv(r: Repo) {
    Work(r.jobs, r.order, r.attempts, r.nextId) && Store(r)
  }

  lemma InvBacked(r: Repo)
    requires Inv(r)
    ensures Backed(r)
  {
    forall id | id in r.jobs && r.jobs[id].lease.Some?
      ensures r.jobs[id].lease.value.attemptId in r.attempts
    {
      assert LeaseBacked(r.jobs[id], r.attempts);
    }
  }

  lemma EmptyInv()
    ensures Inv(Empty())
  {
  }

  // ----- transitions of the work -----

  /** Attempts keep what identifies them. */
  ghost predicate SameAttempts(a: map<Id, Attempt>, b: map<Id, Attempt>) {
    a.Keys == b.Keys
    && forall i | i in a :: b[i].jobId == a[i].jobId && b[i].number == a[i].number && b[i].token == a[i].token
  }

  lemma DistinctKept(a: map<Id, Attempt>, b: map<Id, Attempt>)
    requires AttemptsDistinct(a) && SameAttempts(a, b)
    ensures AttemptsDistinct(b)
  {
  }

  lemma JobsPut(jobs: map<Id, Job>, order: seq<Id>, nextId: Id, job': Job, nextId': Id)
    requires JobsOk(jobs, order, nextId) && nextId <= nextId' && job'.id in jobs && JobOk(job')
    ensures JobsOk(jobs[job'.id := job'], order, nextId')
  {
    hide JobOk, NoDuplicates;
  }

  /** The job's running attempt ends and its lease is given up. */
  lemma EndAttempt(jobs: map<Id, Job>, order: seq<Id>, attempts: map<Id, Attempt>, nextId: Id, job': Job, now: Time,
        outcome: AttemptOutcome, nextId': Id)
    requires Work(jobs, order, attempts, nextId) && nextId <= nextId'
    requires job'.id in jobs && jobs[job'.id].lease.Some?
    requires jobs[job'.id].lease.value.attemptId in attempts
    requires JobOk(job') && job'.lease.None?
    requires job'.spec == jobs[job'.id].spec && job'.attemptCount == jobs[job'.id].attemptCount
    ensures var a := jobs[job'.id].lease.value.attemptId;
            Work(jobs[job'.id := job'], order, attempts[a := Finished(attempts[a], now, outcome)], nextId')
  {
    hide JobOk, HasAttempt, AttemptsDistinct, JobsOk, Numbered;
    JobsPut(jobs, order, nextId, job', nextId');
    assert forall id | id in jobs :: jobs[id].id == id by { JobsHaveIds(jobs, order, nextId); }
    var a := jobs[job'.id].lease.value.attemptId;
    var jobs', attempts' := jobs[job'.id := job'], attempts[a := Finished(attempts[a], now, outcome)];
    assert LeaseBacked(jobs[job'.id], attempts);
    forall id | id in jobs' ensures LeaseBacked(jobs'[id], attempts') {
      assert LeaseBacked(jobs[id], attempts);
    }
    forall b | b in attempts'
      ensures attempts'[b].id == b && b < nextId' && attempts'[b].token < nextId' && AttemptOk(attempts'[b], jobs')
    {
      assert AttemptOk(attempts[b], jobs);
    }
    DistinctKept(attempts, attempts');
    NumberedKept(jobs, attempts, jobs', attempts');
  }

  lemma JobsHaveIds(jobs: map<Id, Job>, order: seq<Id>, nextId: Id)
    requires JobsOk(jobs, order, nextId)
    ensures forall id | id in jobs :: jobs[id].id == id && id < nextId
  {
    hide JobOk, NoDuplicates;
  }

  lemma NumberedKept(jobs: map<Id, Job>, attempts: map<Id, Attempt>, jobs': map<Id, Job>, attempts': map<Id, Attempt>)
    requires Numbered(jobs, attempts)
    requires forall id | id in jobs' :: id in jobs && jobs'[id].attemptCount == jobs[id].attemptCount
    requires SameAttempts(attempts, attempts')
    ensures Numbered(jobs', attempts')
  {
    forall id, n | id in jobs' && 1 <= n <= jobs'[id].attemptCount ensures HasAttempt(attempts', id, n) {
      assert HasAttempt(attempts, id, n);
      var a :| a in attempts && attempts[a].jobId == id && attempts[a].number == n;
      assert attempts'[a].jobId == id;
    }
  }

  lemma RenewedJobOk(jobs: map<Id, Job>, order: seq<Id>, nextId: Id, id: Id, until: Time, now: Time)
    requires JobsOk(jobs, order, nextId) && id in jobs && jobs[id].lease.Some?
    ensures JobsOk(jobs[id := jobs[id].(lease := Some(jobs[id].lease.value.(leasedUntil := until)), updatedAt := now)],
        order, nextId)
  {
    var job' := jobs[id].(lease := Some(jobs[id].lease.value.(leasedUntil := until)), updatedAt := now);
    assert JobOk(jobs[id]);
    assert JobOk(job');
    JobsPut(jobs, order, nextId, job', nextId);
  }

  /** The lease is renewed on the job and on its attempt. */
  lemma RenewLease(jobs: map<Id, Job>, order: seq<Id>, attempts: map<Id, Attempt>, nextId: Id, id: Id, until: Time,
        now: Time)
    requires Work(jobs, order, attempts, nextId)
    requires id in jobs && jobs[id].lease.Some? && jobs[id].lease.value.attemptId in attempts
    ensures var l := jobs[id].lease.value;
            Work(jobs[id := jobs[id].(lease := Some(l.(leasedUntil := until)), updatedAt := now)], order,
                 attempts[l.attemptId := attempts[l.attemptId].(leasedUntil := until)], nextId)
  {
    hide HasAttempt, AttemptsDistinct, Numbered, JobsOk;
    JobsHaveIds(jobs, order, nextId);
    RenewedJobOk(jobs, order, nextId, id, until, now);
    var l := jobs[id].lease.value;
    var jobs' := jobs[id := jobs[id].(lease := Some(l.(leasedUntil := until)), updatedAt := now)];
    var attempts' := attempts[l.attemptId := attempts[l.attemptId].(leasedUntil := until)];
    forall i | i in jobs' ensures LeaseBacked(jobs'[i], attempts') {
      assert LeaseBacked(jobs[i], attempts);
      assert LeaseBacked(jobs[id], attempts);
    }
    forall b | b in attempts'
      ensures attempts'[b].id == b && b < nextId && attempts'[b].token < nextId && AttemptOk(attempts'[b], jobs')
    {
      assert AttemptOk(attempts[b], jobs);
    }
    DistinctKept(attempts, attempts');
    NumberedKept(jobs, attempts, jobs', attempts');
  }

  /** A job changes without touching its lease, its specification or its attempts. */
  lemma TouchJob(jobs: map<Id, Job>, order: seq<Id>, attempts: map<Id, Attempt>, nextId: Id, job': Job, nextId': Id)
    requires Work(jobs, order, attempts, nextId) && nextId <= nextId'
    requires job'.id in jobs && JobOk(job')
    requires job'.lease == jobs[job'.id].lease && job'.spec == jobs[job'.id].spec
    requires job'.attemptCount == jobs[job'.id].attemptCount
    ensures Work(jobs[job'.id := job'], order, attempts, nextId')
  {
    var jobs' := jobs[job'.id := job'];
    forall id | id in jobs' ensures LeaseBacked(jobs'[id], attempts) {
      assert LeaseBacked(jobs[id], attempts);
    }
    forall b | b in attempts
      ensures attempts[b].id == b && b < nextId' && attempts[b].token < nextId' && AttemptOk(attempts[b], jobs')
    {
      assert AttemptOk(attempts[b], jobs);
    }
    NumberedKept(jobs, attempts, jobs', attempts);
  }

  /** A waiting job gets a fresh attempt, numbered one more than the last. */
  lemma BeginAttempt(jobs: map<Id, Job>, order: seq<Id>, attempts: map<Id, Attempt>, nextId: Id, job': Job, a: Attempt,
        nextId': Id)
    requires Work(jobs, order, attempts, nextId) && nextId + 2 <= nextId'
    requires job'.id in jobs && jobs[job'.id].lease.None? && JobOk(job') && job'.lease.Some?
    requires job'.spec == jobs[job'.id].spec && job'.attemptCount == jobs[job'.id].attemptCount + 1
    requires var l := job'.lease.value;
             && a == Attempt(nextId, job'.id, job'.attemptCount, l.worker, nextId + 1, a.startedAt, l.leasedUntil,
                None, None)
             && l == Lease(job'.id, nextId, job'.attemptCount, l.worker, nextId + 1, l.leasedUntil)
    requires job'.spec.deadline.Some? ==> a.startedAt < job'.spec.deadline.value
    ensures Work(jobs[job'.id := job'], order, attempts[a.id := a], nextId')
  {
    var jobs', attempts' := jobs[job'.id := job'], attempts[a.id := a];
    hide HasAttempt, Numbered, AttemptsDistinct, JobsOk, JobOk;
    JobsHaveIds(jobs, order, nextId);
    JobsPut(jobs, order, nextId, job', nextId');
    AttemptFresh(jobs, order, attempts, nextId);
    forall id | id in jobs' ensures LeaseBacked(jobs'[id], attempts') {
      assert LeaseBacked(jobs[id], attempts) && jobs'[id].id == id;
    }
    forall b | b in attempts'
      ensures attempts'[b].id == b && b < nextId' && attempts'[b].token < nextId' && AttemptOk(attempts'[b], jobs')
    {
      if b != a.id { assert AttemptOk(attempts[b], jobs); }
    }
    hide AttemptOk, LeaseBacked;
    BeginDistinct(jobs, attempts, nextId, a);
    BeginNumbered(jobs, attempts, job', a);
  }

  lemma AttemptFresh(jobs: map<Id, Job>, order: seq<Id>, attempts: map<Id, Attempt>, nextId: Id)
    requires Work(jobs, order, attempts, nextId)
    ensures nextId !in attempts
  {
    hide JobsOk, LeaseBacked, AttemptOk, AttemptsDistinct, Numbered;
  }

  lemma BeginDistinct(jobs: map<Id, Job>, attempts: map<Id, Attempt>, nextId: Id, a: Attempt)
    requires AttemptsOk(jobs, attempts, nextId) && AttemptsDistinct(attempts)
    requires a.token == nextId + 1 && a.id == nextId && a.jobId in jobs && a.number == jobs[a.jobId].attemptCount + 1
    ensures AttemptsDistinct(attempts[a.id := a])
  {
    forall b | b in attempts
      ensures attempts[b].token < nextId && (attempts[b].jobId == a.jobId ==> attempts[b].number < a.number)
    {
      assert AttemptOk(attempts[b], jobs);
    }
  }

  lemma BeginNumbered(jobs: map<Id, Job>, attempts: map<Id, Attempt>, job': Job, a: Attempt)
    requires Numbered(jobs, attempts) && job'.id in jobs && a.id !in attempts
    requires a.jobId == job'.id && a.number == job'.attemptCount == jobs[job'.id].attemptCount + 1
    ensures Numbered(jobs[job'.id := job'], attempts[a.id := a])
  {
    var jobs', attempts' := jobs[job'.id := job'], attempts[a.id := a];
    forall id, n | id in jobs' && 1 <= n <= jobs'[id].attemptCount ensures HasAttempt(attempts', id, n) {
      if id == job'.id && n == job'.attemptCount {
        assert attempts'[a.id].number == n;
      } else {
        assert HasAttempt(attempts, id, n);
        var b :| b in attempts && attempts[b].jobId == id && attempts[b].number == n;
        assert attempts'[b] == attempts[b];
      }
    }
  }

  /** A submitted job joins the queue. */
  lemma AddJob(jobs: map<Id, Job>, order: seq<Id>, attempts: map<Id, Attempt>, nextId: Id, spec: JobSpec, now: Time)
    requires Work(jobs, order, attempts, nextId) && spec.WellFormed()
    ensures Work(jobs[nextId := NewJob(nextId, spec, now)], order + [nextId], attempts, nextId + 2)
  {
    var jobs', order' := jobs[nextId := NewJob(nextId, spec, now)], order + [nextId];
    assert nextId !in jobs && nextId !in order;
    assert NoDuplicates(order') by {
      forall i, j | 0 <= i < j < |order'| ensures order'[i] != order'[j] {
        assert order'[i] == order[i] && order[i] in order;
      }
    }
    forall id | id in jobs' ensures LeaseBacked(jobs'[id], attempts) {
      if id != nextId { assert LeaseBacked(jobs[id], attempts); }
    }
    forall b | b in attempts
      ensures attempts[b].id == b && attempts[b].token < nextId && AttemptOk(attempts[b], jobs')
    {
      assert AttemptOk(attempts[b], jobs);
    }
    forall id, n | id in jobs' && 1 <= n <= jobs'[id].attemptCount ensures HasAttempt(attempts, id, n) {
      assert id in jobs && HasAttempt(attempts, id, n);
    }
  }

  lemma WorkMonotone(jobs: map<Id, Job>, order: seq<Id>, attempts: map<Id, Attempt>, nextId: Id, nextId': Id)
    requires Work(jobs, order, attempts, nextId) && nextId <= nextId'
    ensures Work(jobs, order, attempts, nextId')
  {
  }

  // ----- transitions of the store -----

  /** Attempts are only added, keep their job, and a finished one never changes. */
  ghost predicate AttemptsGrow(a: map<Id, Attempt>, b: map<Id, Attempt>) {
    forall i | i in a ::
      && i in b && b[i].jobId == a[i].jobId && b[i].number == a[i].number && b[i].token == a[i].token
      && b[i].startedAt == a[i].startedAt
      && (a[i].finishedAt.Some? ==> b[i] == a[i])
  }

  ghost predicate JobsKeepIdentity(a: map<Id, Job>, b: map<Id, Job>) {
    a.Keys == b.Keys && forall id | id in a :: b[id].spec == a[id].spec && b[id].publicationId == a[id].publicationId
  }

  /** At most one event is appended, and it is not a commit. */
  ghost predicate QuietOutbox(r: Repo, r': Repo) {
    && r.nextId <= r'.nextId
    && (r'.outbox == r.outbox
        || exists e: Event ::
           r'.outbox == r.outbox + [e] && !e.body.PublicationCommitted? && r.nextId <= e.id < r'.nextId)
  }

  lemma CommitKept(outbox: seq<Event>, e: Event, p: Publication)
    requires HasCommit(outbox, p)
    ensures HasCommit(outbox + [e], p)
  {
    var k :| 0 <= k < |outbox| && Commits(outbox[k], p);
    assert (outbox + [e])[k] == outbox[k];
  }

  lemma QuietEvent(pubs: map<Id, Publication>, outbox: seq<Event>, nextId: Id, e: Event, nextId': Id)
    requires EventsOk(pubs, outbox, nextId) && !e.body.PublicationCommitted? && nextId <= e.id < nextId'
    ensures EventsOk(pubs, outbox + [e], nextId')
  {
    hide HasCommit, Commits;
    forall p | p in pubs {
      CommitKept(outbox, e, pubs[p]);
    }
  }

  lemma QuietEvents(pubs: map<Id, Publication>, r: Repo, r': Repo)
    requires EventsOk(pubs, r.outbox, r.nextId) && QuietOutbox(r, r')
    ensures EventsOk(pubs, r'.outbox, r'.nextId)
  {
    if r'.outbox != r.outbox {
      var e: Event :| r'.outbox == r.outbox + [e] && !e.body.PublicationCommitted? && r.nextId <= e.id < r'.nextId;
      QuietEvent(pubs, r.outbox, r.nextId, e, r'.nextId);
    }
  }

  /** Work may go on around an unchanged store. */
  lemma StoreKept(r: Repo, r': Repo)
    requires Store(r)
    requires r'.staged == r.staged && r'.publications == r.publications && r'.current == r.current
    requires r'.receipts == r.receipts && r'.idempotency == r.idempotency
    requires AttemptsGrow(r.attempts, r'.attempts) && JobsKeepIdentity(r.jobs, r'.jobs) && QuietOutbox(r, r')
    ensures Store(r')
  {
    QuietEvents(r.publications, r, r');
  }
}
