/** What holds over whole runs of the durable-job repository: any number of calls, in any
    order, with any arguments, each with its own clock reading. */
module JobRuns {
  import opened Basics
  import opened JobTypes
  import opened Correction
  import opened JobOperations
  import opened JobInvariant
  import opened JobSteps

  function Run(r: Repo, calls: seq<Call>): (r': Repo)
    requires Inv(r)
    ensures Inv(r')
    decreases |calls|
  {
    if calls == [] then r
    else
      StepSafe(r, calls[0]);
      Run(Step(r, calls[0]), calls[1..])
  }

  /** Nothing that must last is changed by a whole run. */
  lemma {:induction false} RunGrows(r: Repo, calls: seq<Call>)
    requires Inv(r)
    ensures Grows(r, Run(r, calls))
    decreases |calls|
  {
    hide Inv, Grows, Step;
    if calls == [] {
      GrowsReflexive(r);
    } else {
      StepSafe(r, calls[0]);
      RunGrows(Step(r, calls[0]), calls[1..]);
      GrowsTransitive(r, Step(r, calls[0]), Run(Step(r, calls[0]), calls[1..]));
    }
  }

  function FromEmpty(calls: seq<Call>): Repo {
    EmptyInv();
    Run(Empty(), calls)
  }

  // ----- leases and attempts -----

  /** In every reachable repository a job is running exactly while it holds a lease, the
      lease's attempt is its only open one and agrees with the lease, its attempts are
      numbered 1 to its attempt count without gaps or repeats, and never exceed the budget. */
  lemma LeaseDiscipline(calls: seq<Call>, id: Id)
    requires id in FromEmpty(calls).jobs
    ensures var r := FromEmpty(calls); var job := r.jobs[id];
            && (job.state.Running? <==> job.lease.Some?)
            && (forall a | a in r.attempts && r.attempts[a].jobId == id ::
                  r.attempts[a].finishedAt.None? <==> job.lease.Some? && job.lease.value.attemptId == a)
            && (job.lease.Some? ==>
                  && job.lease.value.attemptId in r.attempts
                  && var a := r.attempts[job.lease.value.attemptId];
                  && job.lease.value == Lease(id, a.id, a.number, a.worker, a.token, a.leasedUntil)
                  && a.number == job.attemptCount)
            && job.attemptCount <= job.spec.maxAttempts
            && (forall n: int :: 1 <= n <= job.attemptCount <==> HasAttempt(r.attempts, id, n))
            && (forall a, b | a in r.attempts && b in r.attempts && a != b
               && r.attempts[a].jobId == r.attempts[b].jobId ::
                  r.attempts[a].number != r.attempts[b].number)
  {
    var r := FromEmpty(calls);
    AttemptsFacts(r, id);
  }

  lemma AttemptsFacts(r: Repo, id: Id)
    requires Inv(r) && id in r.jobs
    ensures var job := r.jobs[id];
            && (job.state.Running? <==> job.lease.Some?)
            && (forall a | a in r.attempts && r.attempts[a].jobId == id ::
                  r.attempts[a].finishedAt.None? <==> job.lease.Some? && job.lease.value.attemptId == a)
            && (job.lease.Some? ==>
                  && job.lease.value.attemptId in r.attempts
                  && var a := r.attempts[job.lease.value.attemptId];
                  && job.lease.value == Lease(id, a.id, a.number, a.worker, a.token, a.leasedUntil)
                  && a.number == job.attemptCount)
            && job.attemptCount <= job.spec.maxAttempts
            && (forall n: int :: 1 <= n <= job.attemptCount <==> HasAttempt(r.attempts, id, n))
            && (forall a, b | a in r.attempts && b in r.attempts && a != b
               && r.attempts[a].jobId == r.attempts[b].jobId ::
                  r.attempts[a].number != r.attempts[b].number)
  {
    hide Store;
    InvJob(r, id);
    forall a | a in r.attempts ensures AttemptOk(r.attempts[a], r.jobs) && r.attempts[a].id == a {}
    hide Work;
    forall n: int ensures 1 <= n <= r.jobs[id].attemptCount <==> HasAttempt(r.attempts, id, n) {
      if 1 <= n <= r.jobs[id].attemptCount { NumberedFact(r, id, n); }
    }
    DistinctFact(r);
    if r.jobs[id].lease.Some? { LeaseFact(r, id); }
  }

  lemma NumberedFact(r: Repo, id: Id, n: int)
    requires Inv(r) && id in r.jobs && 1 <= n <= r.jobs[id].attemptCount
    ensures HasAttempt(r.attempts, id, n)
  {
    hide Store, HasAttempt, JobsOk, LeaseBacked, AttemptsOk, AttemptsDistinct;
  }

  lemma DistinctFact(r: Repo)
    requires Inv(r)
    ensures AttemptsDistinct(r.attempts)
  {
    hide Store, AttemptsDistinct, JobsOk, LeaseBacked, AttemptsOk, Numbered;
  }

  lemma LeaseFact(r: Repo, id: Id)
    requires Inv(r) && id in r.jobs && r.jobs[id].lease.Some?
    ensures var l := r.jobs[id].lease.value;
            l.attemptId in r.attempts && r.attempts[l.attemptId].id == l.attemptId && l.jobId == id
              && l.number == r.jobs[id].attemptCount
  {
    hide Store, Numbered, AttemptsDistinct, NoDuplicates;
    assert LeaseBacked(r.jobs[id], r.attempts);
  }

  /** Attempts start before the deadline, and a job has the lease of one open attempt only. */
  lemma NoLateAttempt(calls: seq<Call>, a: Id)
    requires a in FromEmpty(calls).attempts
    ensures var r := FromEmpty(calls); var attempt := r.attempts[a];
            && attempt.jobId in r.jobs
            && (r.jobs[attempt.jobId].spec.deadline.Some? ==>
               attempt.startedAt < r.jobs[attempt.jobId].spec.deadline.value)
  {
    var r := FromEmpty(calls);
    hide Store, JobsOk, LeaseBacked, Numbered, AttemptsDistinct;
    assert AttemptOk(r.attempts[a], r.jobs);
  }

  // ----- fencing -----

  /** The calls by which a worker acts for a job. */
  predicate WorkerCall(op: Op) {
    op.DoHeartbeat? || op.DoAcknowledgeCancel? || op.DoStage? || op.DoFail? || op.DoComplete?
  }

  /** A finished attempt's token never again passes the lease check, on any job. */
  lemma StaleTokenRejected(r: Repo, a: Id, jobId: Id, token: Id)
    requires Inv(r) && a in r.attempts && r.attempts[a].finishedAt.Some? && r.attempts[a].token == token
    ensures LeaseCheck(r, jobId, token).Err?
  {
    hide Inv, AttemptsDistinct;
    if LeaseCheck(r, jobId, token).Ok? {
      OpenAttempt(r, jobId);
      InvJob(r, jobId);
      assert LeaseBacked(r.jobs[jobId], r.attempts);
      var b := r.jobs[jobId].lease.value.attemptId;
      DistinctFact(r);
      assert r.attempts[b].token == r.attempts[a].token && a != b;
      assert AttemptsDistinct(r.attempts);
      TokensDiffer(r.attempts, a, b);
    }
  }

  lemma TokensDiffer(attempts: map<Id, Attempt>, a: Id, b: Id)
    requires AttemptsDistinct(attempts) && a in attempts && b in attempts && a != b
    ensures attempts[a].token != attempts[b].token
  {
  }

  lemma FinishedStays(r: Repo, r': Repo, a: Id)
    requires Grows(r, r') && a in r.attempts && r.attempts[a].finishedAt.Some?
    ensures a in r'.attempts && r'.attempts[a] == r.attempts[a]
  {
    hide JobsGrow, StagedGrow, PublicationsGrow, ReceiptsGrow, KeysGrow, OutboxGrows;
  }

  /** Fencing of one call: with the token of a finished attempt a worker changes nothing
      beyond the expiry that the clock dictates anyway, and is refused, unless it merely
      reads back the receipt of a completion that already happened. */
  lemma StaleCallFenced(r: Repo, a: Id, c: Call)
    requires Inv(r) && a in r.attempts && r.attempts[a].finishedAt.Some?
    requires WorkerCall(c.op) && c.op.token == r.attempts[a].token
    ensures Backed(r) && (Step(r, c) == r || Step(r, c) == Settle(r, c.op.jobId, c.now))
    ensures c.op.DoComplete? && (c.op.jobId, c.op.completionKey) in r.receipts ==> Step(r, c) == r
  {
    hide Inv, Grows, Settle, LeaseCheck, Commit, NextPublication;
    SettleSafe(r, c.op.jobId, c.now);
    var s := Settle(r, c.op.jobId, c.now);
    FinishedStays(r, s, a);
    StaleTokenRejected(s, a, c.op.jobId, c.op.token);
  }

  /** Fencing over all runs: once an attempt has finished, its token is fenced forever. */
  lemma StaleTokenFencedForever(calls: seq<Call>, a: Id, more: seq<Call>, c: Call)
    requires a in FromEmpty(calls).attempts && FromEmpty(calls).attempts[a].finishedAt.Some?
    requires WorkerCall(c.op) && c.op.token == FromEmpty(calls).attempts[a].token
    ensures var r := Run(FromEmpty(calls), more);
            && Backed(r)
            && a in r.attempts && r.attempts[a] == FromEmpty(calls).attempts[a]
            && (Step(r, c) == r || Step(r, c) == Settle(r, c.op.jobId, c.now))
  {
    hide Inv, Grows, Step;
    var r := Run(FromEmpty(calls), more);
    RunGrows(FromEmpty(calls), more);
    FinishedStays(FromEmpty(calls), r, a);
    StaleCallFenced(r, a, c);
  }

  /** Does the call fail because the caller may not act for the job? */
  predicate RefusedBy(r: Repo, c: Call)
    requires Backed(r)
  {
    match c.op
    case DoHeartbeat(id, token, leaseFor) => leaseFor > 0 && LeaseCheck(Settle(r, id, c.now), id, token).Err?
    case DoAcknowledgeCancel(id, token) => LeaseCheck(Settle(r, id, c.now), id, token).Err?
    case DoStage(id, token, name, uri, digest, _) =>
      name != "" && uri != "" && digest != "" && LeaseCheck(Settle(r, id, c.now), id, token).Err?
    case DoFail(id, token, _, delay) => delay >= 0 && LeaseCheck(Settle(r, id, c.now), id, token).Err?
    case DoComplete(id, token, key, _, completion) =>
      key != "" && completion != "" && (id, completion) !in r.receipts
        && LeaseCheck(Settle(r, id, c.now), id, token).Err?
    case _ => false
  }

  /** A refused call is not always without effect. It changes the repository exactly when
      the job's lease has lapsed at the caller's clock, whoever is calling. */
  lemma RefusedCallChangesExactly(r: Repo, c: Call)
    requires Backed(r) && RefusedBy(r, c)
    ensures Step(r, c) != r <==> c.op.jobId in r.jobs && LeaseLapsed(r.jobs[c.op.jobId], c.now)
  {
    hide Settle, LeaseCheck, Commit, NextPublication, RefusedBy, Step;
    RefusedSettles(r, c);
    SettledChanges(r, c.op.jobId, c.now);
  }

  lemma RefusedSettles(r: Repo, c: Call)
    requires Backed(r) && RefusedBy(r, c)
    ensures WorkerCall(c.op) && Step(r, c) == Settle(r, c.op.jobId, c.now)
  {
    hide Settle, LeaseCheck, Commit, NextPublication, StagedFor, PutJob, Backed;
  }

  /** An expiry shows: it emits an event. */
  lemma SettledChanges(r: Repo, id: Id, now: Time)
    requires Backed(r)
    ensures Settle(r, id, now) != r <==> id in r.jobs && LeaseLapsed(r.jobs[id], now)
  {
    if id in r.jobs && LeaseLapsed(r.jobs[id], now) {
      assert |Settle(r, id, now).outbox| == |r.outbox| + 1;
    }
  }

  function ExampleSpec(): JobSpec { JobSpec("case", "kind", "key", "digest", "", 2, None) }

  function ExampleCalls(): seq<Call> {
    [Call(DoSubmit(ExampleSpec()), 0), Call(DoClaim("worker", 10, None), 1)]
  }

  /** For example: a job is submitted at 0 and leased at 1 until 11. A heartbeat at 11 is refused,
      whatever its token, and yet it puts the job back in the queue and emits an event. */
  lemma RefusedCallExample(token: Id)
    ensures var r, c := FromEmpty(ExampleCalls()), Call(DoHeartbeat(0, token, 10), 11);
      Backed(r) && RefusedBy(r, c) && Step(r, c) != r && 0 in Step(r, c).jobs && Step(r, c).jobs[0].state == RetryWait
  {
    hide *;
    ExampleRun();
    ExampleClaimed();
    ExampleRefused(FromEmpty(ExampleCalls()), token);
  }

  lemma ExampleRun()
    ensures Backed(Empty()) && Backed(Step(Empty(), ExampleCalls()[0])) && Backed(FromEmpty(ExampleCalls()))
        && |ExampleCalls()| == 2
    ensures FromEmpty(ExampleCalls()) == Step(Step(Empty(), ExampleCalls()[0]), ExampleCalls()[1])
  {
    hide Inv, Step, Backed, Empty, Grows;
    var calls := ExampleCalls();
    EmptyInv();
    InvBacked(Empty());
    StepSafe(Empty(), calls[0]);
    var submitted := Step(Empty(), calls[0]);
    InvBacked(submitted);
    StepSafe(submitted, calls[1]);
    InvBacked(Step(submitted, calls[1]));
    assert calls[1..] == [calls[1]] && calls[1..][1..] == [];
    assert Run(submitted, [calls[1]]) == Run(Step(submitted, calls[1]), []);
  }

  lemma ExampleRefused(r: Repo, token: Id)
    requires Backed(r) && 0 in r.jobs && r.jobs[0].state == Running && r.jobs[0].lease.Some?
        && r.jobs[0].lease.value.leasedUntil == 11
    requires r.jobs[0].attemptCount == 1 && r.jobs[0].spec.maxAttempts == 2 && r.jobs[0].cancelRequestedAt.None?
    ensures var c := Call(DoHeartbeat(0, token, 10), 11);
      RefusedBy(r, c) && Step(r, c) != r && 0 in Step(r, c).jobs && Step(r, c).jobs[0].state == RetryWait
  {
    var c := Call(DoHeartbeat(0, token, 10), 11);
    assert Settle(r, 0, 11).jobs[0].state == RetryWait;
    hide Settle, Commit, NextPublication, ExpireLease;
    assert RefusedBy(r, c) && Step(r, c) == Settle(r, 0, 11);
    RefusedCallChangesExactly(r, c);
  }

  lemma ExampleClaimed()
    ensures var calls := ExampleCalls();
      && Backed(Empty()) && Backed(Step(Empty(), calls[0]))
      && var r := Step(Step(Empty(), calls[0]), calls[1]);
      && 0 in r.jobs && r.jobs[0].state == Running && r.jobs[0].lease.Some? && r.jobs[0].lease.value.leasedUntil == 11
      && r.jobs[0].attemptCount == 1 && r.jobs[0].spec.maxAttempts == 2 && r.jobs[0].cancelRequestedAt.None?
      && r.jobs.Keys == {0} && r.jobs[0].spec.deadline.None?
  {
    hide Step, Backed, Empty;
    ExampleSubmitted();
    ExampleLeased(Step(Empty(), ExampleCalls()[0]));
  }

  lemma ExampleSubmitted()
    ensures Backed(Empty())
    ensures var r := Step(Empty(), ExampleCalls()[0]);
      Backed(r) && r.jobs == map[0 := NewJob(0, ExampleSpec(), 0)] && r.order == [0]
  {
  }

  lemma ExampleLeased(r: Repo)
    requires Backed(r) && r.jobs == map[0 := NewJob(0, ExampleSpec(), 0)] && r.order == [0]
    ensures var r' := Step(r, ExampleCalls()[1]);
      && 0 in r'.jobs && r'.jobs[0].state == Running && r'.jobs[0].lease.Some?
      && r'.jobs[0].lease.value.leasedUntil == 11
      && r'.jobs[0].attemptCount == 1 && r'.jobs[0].spec.maxAttempts == 2 && r'.jobs[0].cancelRequestedAt.None?
      && r'.jobs.Keys == {0} && r'.jobs[0].spec.deadline.None?
  {
    var job := NewJob(0, ExampleSpec(), 0);
    assert r.order[1..] == [];
    assert ExpireAll(r, r.order, 1) == r;
    assert ClaimableIn(r, r.order, None, 1) == [job];
    assert Eligible(r, None, 1) == [job] by { assert [job][1..] == []; }
  }

  // ----- terminal states and cancellation -----

  /** A job in a terminal state is never written again. */
  lemma TerminalForever(r: Repo, calls: seq<Call>, id: Id)
    requires Inv(r) && id in r.jobs && r.jobs[id].state.Terminal()
    ensures id in Run(r, calls).jobs && Run(r, calls).jobs[id] == r.jobs[id]
  {
    RunGrows(r, calls);
    hide Inv, AttemptsGrow, StagedGrow, PublicationsGrow, ReceiptsGrow, KeysGrow, OutboxGrows;
  }

  /** Cancellation is sticky: from the request on the job is running or cancelled, keeps the
      instant of the first request, and is never published; and only requested jobs are cancelled. */
  lemma CancellationSticks(r: Repo, calls: seq<Call>, id: Id)
    requires Inv(r) && id in r.jobs
    ensures id in Run(r, calls).jobs
    ensures var job := Run(r, calls).jobs[id];
            && (r.jobs[id].cancelRequestedAt.Some? ==>
                  && (job.state.Running? || job.state.Cancelled?)
                  && job.cancelRequestedAt == r.jobs[id].cancelRequestedAt && job.publicationId.None?)
            && (job.state.Cancelled? ==> job.cancelRequestedAt.Some?)
  {
    RunGrows(r, calls);
    assert JobsGrow(r.jobs, Run(r, calls).jobs);
    assert id in Run(r, calls).jobs by {
      hide Inv, AttemptsGrow, StagedGrow, PublicationsGrow, ReceiptsGrow, KeysGrow, OutboxGrows;
    }
    hide Inv, AttemptsGrow, StagedGrow, PublicationsGrow, ReceiptsGrow, KeysGrow, OutboxGrows, Run;
    InvJob(Run(r, calls), id);
  }

  // ----- bounded lives -----

  /** How many state changes a job still has in it. */
  function Rank(job: Job): int {
    if job.state.Terminal() then 0
    else if job.state.Running? then 2 * (job.spec.maxAttempts - job.attemptCount) + 1
    else 2 * (job.spec.maxAttempts - job.attemptCount)
  }

  function Moved(a: Job, b: Job): nat {
    if a.state != b.state then 1 else 0
  }

  /** Every change of state costs at least one rank. */
  ghost predicate RanksDrop(a: map<Id, Job>, b: map<Id, Job>) {
    forall id | id in a :: id in b && Rank(b[id]) + Moved(a[id], b[id]) <= Rank(a[id])
  }

  lemma RanksDropTransitive(a: map<Id, Job>, b: map<Id, Job>, c: map<Id, Job>)
    requires RanksDrop(a, b) && RanksDrop(b, c)
    ensures RanksDrop(a, c)
  {
    hide Rank;
  }

  lemma PutDrops(jobs: map<Id, Job>, job': Job)
    requires job'.id in jobs && Rank(job') + Moved(jobs[job'.id], job') <= Rank(jobs[job'.id])
    ensures RanksDrop(jobs, jobs[job'.id := job'])
  {
    hide Rank;
  }

  lemma ExpireDrops(r: Repo, id: Id, now: Time)
    requires Inv(r) && Backed(r) && id in r.jobs
    ensures RanksDrop(r.jobs, ExpireLease(r, id, now).jobs)
  {
    hide Inv, LeaseBacked, Backed;
    InvJob(r, id);
    if LeaseLapsed(r.jobs[id], now) {
      PutDrops(r.jobs, ExpiredJob(r.jobs[id], now));
    }
  }

  lemma {:induction false} ExpireAllDrops(r: Repo, ids: seq<Id>, now: Time)
    requires Inv(r) && Backed(r) && forall id | id in ids :: id in r.jobs
    ensures RanksDrop(r.jobs, ExpireAll(r, ids, now).jobs)
    decreases |ids|
  {
    if ids != [] {
      assert ids[0] in ids;
      ExpireDrops(r, ids[0], now);
      ExpireLeaseSafe(r, ids[0], now);
      ExpireLeaseBacked(r, ids[0], now);
      hide Inv, RanksDrop, ExpireLease, Grows;
      var next := ExpireLease(r, ids[0], now);
      ExpireAllDrops(next, ids[1..], now);
      RanksDropTransitive(r.jobs, next.jobs, ExpireAll(next, ids[1..], now).jobs);
    }
  }

  lemma DeadlineDrops(r: Repo, job: Job, now: Time)
    requires Inv(r) && job.id in r.jobs && r.jobs[job.id] == job && job.state.Waiting()
    ensures RanksDrop(r.jobs, PutJob(r, DeadlineFailed(job, now)).jobs)
  {
    hide Inv, Backed, LeaseBacked;
    InvJob(r, job.id);
    PutDrops(r.jobs, DeadlineFailed(job, now));
  }

  lemma StartDrops(r: Repo, job: Job, worker: string, leaseFor: Time, now: Time)
    requires Inv(r) && job.id in r.jobs && r.jobs[job.id] == job && job.state.Waiting()
    ensures RanksDrop(r.jobs, StartAttempt(r, job, worker, leaseFor, now).jobs)
  {
    hide Inv, Backed, LeaseBacked;
    InvJob(r, job.id);
    PutDrops(r.jobs, StartAttempt(r, job, worker, leaseFor, now).jobs[job.id]);
  }

  lemma {:induction false} ClaimFirstDrops(r: Repo, eligible: seq<Job>, worker: string, leaseFor: Time, now: Time)
    requires Inv(r) && WaitingList(r, eligible)
    ensures RanksDrop(r.jobs, ClaimFirst(r, eligible, worker, leaseFor, now).0.jobs)
    decreases |eligible|
  {
    hide Inv, Grows, RanksDrop, DistinctIds, StartAttempt, DeadlineFailed;
    if eligible == [] {
      RanksKept(r.jobs);
    } else {
      var job := eligible[0];
      assert r.jobs[job.id] == job;
      if job.spec.DeadlinePassed(now) {
        var next := PutJob(r, DeadlineFailed(job, now));
        DeadlineDrops(r, job, now);
        DeadlineFailSafe(r, job, now);
        WaitingRest(r, eligible, now);
        ClaimFirstDrops(next, eligible[1..], worker, leaseFor, now);
        RanksDropTransitive(r.jobs, next.jobs, ClaimFirst(next, eligible[1..], worker, leaseFor, now).0.jobs);
      } else {
        StartDrops(r, job, worker, leaseFor, now);
      }
    }
  }

  /** The repository between the two phases of a call: lease expiry, then the action. In
      each phase a job is written at most once. */
  function Expired(r: Repo, c: Call): Repo
    requires Backed(r)
  {
    match c.op
    case DoClaim(worker, leaseFor, _) => if worker == "" || leaseFor <= 0 then r else ExpireAll(r, r.order, c.now)
    case DoRequestCancel(id, _) => Settle(r, id, c.now)
    case DoHeartbeat(id, _, leaseFor) => if leaseFor <= 0 then r else Settle(r, id, c.now)
    case DoAcknowledgeCancel(id, _) => Settle(r, id, c.now)
    case DoStage(id, _, name, uri, digest, _) =>
      if name == "" || uri == "" || digest == "" then r else Settle(r, id, c.now)
    case DoFail(id, _, _, delay) => if delay < 0 then r else Settle(r, id, c.now)
    case DoComplete(id, _, key, _, completion) =>
      if key == "" || completion == "" || (id, completion) in r.receipts then r else Settle(r, id, c.now)
    case _ => r
  }

  lemma ExpiredDrops(r: Repo, c: Call)
    requires Inv(r)
    ensures Backed(r) && Inv(Expired(r, c)) && Grows(r, Expired(r, c)) && RanksDrop(r.jobs, Expired(r, c).jobs)
  {
    hide Inv, Grows, ExpireLease, ExpireAll, Backed;
    InvBacked(r);
    GrowsReflexive(r);
    var op := c.op;
    if op.DoClaim? {
      OrderKnown(r);
      ExpireAllSafe(r, r.order, c.now);
      ExpireAllDrops(r, r.order, c.now);
    } else if WorkerCall(op) || op.DoRequestCancel? {
      SettleSafe(r, op.jobId, c.now);
      if op.jobId in r.jobs {
        ExpireDrops(r, op.jobId, c.now);
      }
    }
  }

  lemma ActionDrops(r: Repo, c: Call)
    requires Inv(r)
    ensures Backed(r) && RanksDrop(Expired(r, c).jobs, Step(r, c).jobs)
  {
    hide Inv, Grows, Settle, ExpireAll, RanksDrop, ClaimFirst, Commit, NextPublication, Backed, LeaseBacked, Propagate;
    ExpiredDrops(r, c);
    InvBacked(r);
    var s := Expired(r, c);
    RanksKept(s.jobs);
    var op := c.op;
    if op.DoSubmit? {
      SubmitKeeps(r, op.spec, c.now);
    } else if op.DoClaim? {
      ClaimActionDrops(r, op.worker, op.leaseFor, op.kinds, c.now);
    } else if WorkerCall(op) || op.DoRequestCancel? {
      JobActionDrops(r, c);
    } else {
    }
  }

  lemma RanksKept(jobs: map<Id, Job>)
    ensures RanksDrop(jobs, jobs)
  {
  }

  lemma SubmitKeeps(r: Repo, spec: JobSpec, now: Time)
    requires Inv(r) && Backed(r)
    ensures RanksDrop(r.jobs, Submit(r, spec, now).repo.jobs)
  {
    hide Inv, Backed;
    NextIdFresh(r);
  }

  lemma ClaimActionDrops(r: Repo, worker: string, leaseFor: Time, kinds: Option<set<string>>, now: Time)
    requires Inv(r) && Backed(r)
    ensures RanksDrop(Expired(r, Call(DoClaim(worker, leaseFor, kinds), now)).jobs,
        Claim(r, worker, leaseFor, kinds, now).repo.jobs)
  {
    hide Inv, Grows, ClaimFirst, Eligible, ExpireAll, RanksDrop;
    RanksKept(r.jobs);
    OrderKnown(r);
    ExpireAllSafe(r, r.order, now);
    var s := ExpireAll(r, r.order, now);
    EligibleExact(s, kinds, now);
    ClaimFirstDrops(s, Eligible(s, kinds, now), worker, leaseFor, now);
  }

  /** An action writes its own job, if any, and pays for the change of state. */
  ghost predicate ActionShape(s: map<Id, Job>, t: map<Id, Job>, id: Id) {
    t == s
    || (id in s && s[id].id == id && id in t && t[id].id == id && t == s[id := t[id]]
        && (JobOk(s[id]) ==> Rank(t[id]) + Moved(s[id], t[id]) <= Rank(s[id])))
  }

  lemma HeartbeatShape(r: Repo, id: Id, token: Id, leaseFor: Time, now: Time)
    requires Backed(r) && leaseFor > 0
    ensures ActionShape(Settle(r, id, now).jobs, Heartbeat(r, id, token, leaseFor, now).repo.jobs, id)
  {
    hide Settle, JobOk;
  }

  lemma CancelShape(r: Repo, id: Id, reason: string, now: Time)
    requires Backed(r)
    ensures ActionShape(Settle(r, id, now).jobs, RequestCancel(r, id, reason, now).repo.jobs, id)
  {
    hide Settle;
  }

  lemma AcknowledgeShape(r: Repo, id: Id, token: Id, now: Time)
    requires Backed(r)
    ensures ActionShape(Settle(r, id, now).jobs, AcknowledgeCancel(r, id, token, now).repo.jobs, id)
  {
    hide Settle;
  }

  lemma StageShape(r: Repo, id: Id, token: Id, name: string, uri: string, digest: string, metadata: string, now: Time)
    requires Backed(r) && name != "" && uri != "" && digest != ""
    ensures StageOutput(r, id, token, name, uri, digest, metadata, now).repo.jobs == Settle(r, id, now).jobs
  {
    hide Settle, LeaseCheck, Backed;
  }

  lemma FailShape(r: Repo, id: Id, token: Id, reason: string, delay: Time, now: Time)
    requires Backed(r) && delay >= 0
    ensures ActionShape(Settle(r, id, now).jobs, Fail(r, id, token, reason, delay, now).repo.jobs, id)
  {
    hide Settle;
  }

  lemma CompleteShape(r: Repo, id: Id, token: Id, key: string, deps: set<DependencyRef>, completion: string, now: Time)
    requires Backed(r) && key != "" && completion != "" && (id, completion) !in r.receipts
    ensures ActionShape(Settle(r, id, now).jobs,
        CompleteAndPublish(r, id, token, key, deps, completion, now).repo.jobs, id)
  {
    hide Settle, NextPublication;
  }

  lemma ActionShapes(r: Repo, c: Call)
    requires Backed(r) && (WorkerCall(c.op) || c.op.DoRequestCancel?)
    ensures ActionShape(Expired(r, c).jobs, Step(r, c).jobs, c.op.jobId)
  {
    hide ActionShape, Settle, Heartbeat, RequestCancel, AcknowledgeCancel, StageOutput, Fail, CompleteAndPublish;
    hide Backed;
    SameShape(r.jobs, c.op.jobId);
    SameShape(Expired(r, c).jobs, c.op.jobId);
    match c.op
    case DoHeartbeat(id, token, leaseFor) =>
      if leaseFor > 0 {
        HeartbeatShape(r, id, token, leaseFor, c.now);
      } else {
        InvalidHeartbeat(r, id, token, leaseFor, c.now);
      }
    case DoRequestCancel(id, reason) => CancelShape(r, id, reason, c.now);
    case DoAcknowledgeCancel(id, token) => AcknowledgeShape(r, id, token, c.now);
    case DoStage(id, token, name, uri, digest, metadata) =>
      if name != "" && uri != "" && digest != "" { StageShape(r, id, token, name, uri, digest, metadata, c.now); }
      else { InvalidStage(r, id, token, name, uri, digest, metadata, c.now); }
    case DoFail(id, token, reason, delay) =>
      if delay >= 0 {
        FailShape(r, id, token, reason, delay, c.now);
      } else {
        InvalidFail(r, id, token, reason, delay, c.now);
      }
    case DoComplete(id, token, key, deps, completion) =>
      if key != "" && completion != "" && (id, completion) !in r.receipts {
        CompleteShape(r, id, token, key, deps, completion, c.now);
      }
      else { InvalidComplete(r, id, token, key, deps, completion, c.now); }
  }

  lemma SameShape(s: map<Id, Job>, id: Id)
    ensures ActionShape(s, s, id)
  {
  }

  lemma InvalidHeartbeat(r: Repo, id: Id, token: Id, leaseFor: Time, now: Time)
    requires Backed(r) && leaseFor <= 0
    ensures Heartbeat(r, id, token, leaseFor, now).repo == r
  {
    hide Backed;
  }

  lemma InvalidStage(r: Repo, id: Id, token: Id, name: string, uri: string, digest: string, metadata: string, now: Time)
    requires Backed(r) && (name == "" || uri == "" || digest == "")
    ensures StageOutput(r, id, token, name, uri, digest, metadata, now).repo == r
  {
    hide Backed;
  }

  lemma InvalidFail(r: Repo, id: Id, token: Id, reason: string, delay: Time, now: Time)
    requires Backed(r) && delay < 0
    ensures Fail(r, id, token, reason, delay, now).repo == r
  {
    hide Backed;
  }

  lemma InvalidComplete(r: Repo, id: Id, token: Id, key: string, deps: set<DependencyRef>, completion: string,
        now: Time)
    requires Backed(r) && (key == "" || completion == "" || (id, completion) in r.receipts)
    ensures CompleteAndPublish(r, id, token, key, deps, completion, now).repo == r
  {
    hide Backed;
  }

  lemma JobActionDrops(r: Repo, c: Call)
    requires Inv(r) && Backed(r) && (WorkerCall(c.op) || c.op.DoRequestCancel?)
    ensures RanksDrop(Expired(r, c).jobs, Step(r, c).jobs)
  {
    hide Inv, Backed, Expired, Step, Rank, Moved;
    ExpiredDrops(r, c);
    ActionShapes(r, c);
    var s, t, id := Expired(r, c).jobs, Step(r, c).jobs, c.op.jobId;
    if t == s {
      RanksKept(s);
    } else {
      InvJob(Expired(r, c), id);
      PutDrops(s, t[id]);
    }
  }

  /** The changes of state of one job in one call. */
  function Moves(r: Repo, c: Call, id: Id): nat
    requires Inv(r) && id in r.jobs
  {
    ExpiredDrops(r, c);
    ActionDrops(r, c);
    Moved(r.jobs[id], Expired(r, c).jobs[id]) + Moved(Expired(r, c).jobs[id], Step(r, c).jobs[id])
  }

  function TotalMoves(r: Repo, calls: seq<Call>, id: Id): nat
    requires Inv(r) && id in r.jobs
    decreases |calls|
  {
    if calls == [] then 0
    else
      StepSafe(r, calls[0]);
      ExpiredDrops(r, calls[0]);
      ActionDrops(r, calls[0]);
      Moves(r, calls[0], id) + TotalMoves(Step(r, calls[0]), calls[1..], id)
  }

  /** A job changes state at most twice per attempt it is allowed, however long the run. */
  lemma {:induction false} BoundedLife(r: Repo, calls: seq<Call>, id: Id)
    requires Inv(r) && id in r.jobs
    ensures 0 <= Rank(r.jobs[id]) <= 2 * r.jobs[id].spec.maxAttempts
    ensures TotalMoves(r, calls, id) <= Rank(r.jobs[id])
    decreases |calls|
  {
    assert 0 <= Rank(r.jobs[id]) <= 2 * r.jobs[id].spec.maxAttempts by { InvJob(r, id); }
    if calls != [] {
      StepSafe(r, calls[0]);
      ExpiredDrops(r, calls[0]);
      ActionDrops(r, calls[0]);
      var next := Step(r, calls[0]);
      hide Inv, Step, Expired, Rank, Grows;
      BoundedLife(next, calls[1..], id);
    }
  }
}
