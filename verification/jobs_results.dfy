/** Published results over whole runs: linear histories, one-to-one bookkeeping, immutability,
    idempotent calls, and what a claim and a correction promise. */
module JobResults {
  import opened Basics
  import opened JobTypes
  import opened Correction
  import opened JobOperations
  import opened JobInvariant
  import opened JobSteps
  import opened JobRuns

  // ----- linear histories -----

  ghost predicate IsGeneration(pubs: map<Id, Publication>, key: (string, string), g: int, p: Id) {
    p in pubs && KeyOf(pubs[p]) == key && pubs[p].generation == g
  }

  /** Walking the supersedes links from a publication down to any lower generation. */
  lemma {:induction false} EarlierGeneration(pubs: map<Id, Publication>, p: Id, g: nat) returns (q: Id)
    requires LinksOk(pubs) && p in pubs && 1 <= g <= pubs[p].generation
    ensures IsGeneration(pubs, KeyOf(pubs[p]), g, q)
    decreases pubs[p].generation
  {
    assert LinkedOk(pubs, pubs[p]);
    if g == pubs[p].generation {
      q := p;
    } else {
      q := EarlierGeneration(pubs, pubs[p].supersedes.value, g);
    }
  }

  ghost predicate HasGeneration(pubs: map<Id, Publication>, key: (string, string), g: int) {
    exists p :: IsGeneration(pubs, key, g, p)
  }

  /** The publications of one key: generations 1 to n, exactly one of each, every one
      superseding the generation before it, with the head at generation n. */
  ghost predicate LinearHistory(pubs: map<Id, Publication>, key: (string, string), head: Id) {
    && head in pubs && KeyOf(pubs[head]) == key
    && (forall g :: 1 <= g <= pubs[head].generation <==> HasGeneration(pubs, key, g))
    && OneEach(pubs, key)
    && EachSupersedesTheLast(pubs, key)
  }

  ghost predicate OneEach(pubs: map<Id, Publication>, key: (string, string)) {
    forall g, p, q :: IsGeneration(pubs, key, g, p) && IsGeneration(pubs, key, g, q) ==> p == q
  }

  ghost predicate EachSupersedesTheLast(pubs: map<Id, Publication>, key: (string, string)) {
    forall p | p in pubs && KeyOf(pubs[p]) == key ::
      if pubs[p].generation == 1 then pubs[p].supersedes.None?
      else pubs[p].supersedes.Some? && IsGeneration(pubs, key, pubs[p].generation - 1, pubs[p].supersedes.value)
  }

  /** In every reachable repository each key that was ever published has a linear history
      ending in its current publication. */
  lemma HistoryIsLinear(calls: seq<Call>, key: (string, string))
    requires key in FromEmpty(calls).current
    ensures LinearHistory(FromEmpty(calls).publications, key, FromEmpty(calls).current[key])
  {
    var r := FromEmpty(calls);
    StoreParts(r);
    hide FromEmpty, Inv, LinearHistory, LinksOk, UniqueGenerations, HeadsOk;
    LinksGiveHistory(r.publications, r.current, key);
  }

  lemma LinksGiveHistory(pubs: map<Id, Publication>, current: map<(string, string), Id>, key: (string, string))
    requires LinksOk(pubs) && UniqueGenerations(pubs) && HeadsOk(pubs, current) && key in current
    ensures LinearHistory(pubs, key, current[key])
  {
    hide LinksOk, UniqueGenerations, IsGeneration, HasGeneration, OneEach, EachSupersedesTheLast;
    assert current[key] in pubs && KeyOf(pubs[current[key]]) == key;
    GenerationsExist(pubs, current, key);
    GenerationsLinked(pubs, key);
    GenerationsUnique(pubs, key);
  }

  lemma GenerationsExist(pubs: map<Id, Publication>, current: map<(string, string), Id>, key: (string, string))
    requires LinksOk(pubs) && HeadsOk(pubs, current) && key in current
    ensures forall g :: 1 <= g <= pubs[current[key]].generation <==> HasGeneration(pubs, key, g)
  {
    var head := current[key];
    forall g ensures 1 <= g <= pubs[head].generation <==> HasGeneration(pubs, key, g) {
      if 1 <= g <= pubs[head].generation {
        var q := EarlierGeneration(pubs, head, g);
      }
      if HasGeneration(pubs, key, g) {
        var p :| IsGeneration(pubs, key, g, p);
        assert LinkedOk(pubs, pubs[p]);
      }
    }
  }

  lemma GenerationsLinked(pubs: map<Id, Publication>, key: (string, string))
    requires LinksOk(pubs)
    ensures EachSupersedesTheLast(pubs, key)
  {
    forall p | p in pubs ensures LinkedOk(pubs, pubs[p]) {}
    hide LinksOk, KeyOf;
  }

  lemma GenerationsUnique(pubs: map<Id, Publication>, key: (string, string))
    requires UniqueGenerations(pubs)
    ensures OneEach(pubs, key)
  {
    hide KeyOf;
  }

  // ----- one-to-one bookkeeping -----

  /** The job succeeded, names this publication, and has no other. */
  ghost predicate OwnJobSucceeded(r: Repo, p: Id)
    requires p in r.publications
  {
    var pub := r.publications[p];
    && pub.jobId in r.jobs && r.jobs[pub.jobId].state.Succeeded? && r.jobs[pub.jobId].publicationId == Some(p)
    && forall q | q in r.publications && r.publications[q].jobId == pub.jobId :: q == p
  }

  /** The outputs are the non-empty set that the job's own successful attempt staged. */
  ghost predicate OwnOutputs(r: Repo, p: Id)
    requires p in r.publications
  {
    var pub := r.publications[p];
    && pub.attemptId in r.attempts && r.attempts[pub.attemptId].jobId == pub.jobId
    && r.attempts[pub.attemptId].outcome == Some(AttemptSucceeded)
    && pub.attemptId in r.staged && pub.outputs == r.staged[pub.attemptId] && pub.outputs != map[]
  }

  ghost predicate OneReceipt(r: Repo, p: Id)
    requires p in r.publications
  {
    && HasReceipt(r.receipts, p)
    && (forall k, l | k in r.receipts && l in r.receipts && r.receipts[k].id == p && r.receipts[l].id == p :: k == l)
    && forall k | k in r.receipts && r.receipts[k].id == p ::
       r.receipts[k] == Identity(r.publications[p]) && k.0 == r.publications[p].jobId
  }

  ghost predicate OneCommit(pubs: map<Id, Publication>, outbox: seq<Event>, p: Id)
    requires p in pubs
  {
    && HasCommit(outbox, pubs[p])
    && forall j, k | 0 <= j < |outbox| && 0 <= k < |outbox| && Commits(outbox[j], pubs[p])
       && Commits(outbox[k], pubs[p]) :: j == k
  }

  /** In every reachable repository succeeded job, publication, completion receipt and commit
      event exist together, once each. */
  lemma CompletionsCorrespond(calls: seq<Call>, p: Id)
    requires p in FromEmpty(calls).publications
    ensures var r := FromEmpty(calls);
            OwnJobSucceeded(r, p) && OwnOutputs(r, p) && OneReceipt(r, p) && OneCommit(r.publications, r.outbox, p)
  {
    hide *;
    var r := FromEmpty(calls);
    assert Inv(r) by { ReachableInv(calls); }
    StoreParts(r);
    SucceededJob(r, p);
    OutputsFact(r, p);
    ReceiptsFact(r, p);
    CommitsFact(r.publications, r.outbox, r.nextId, p);
  }

  lemma ReachableInv(calls: seq<Call>)
    ensures Inv(FromEmpty(calls))
  {
    hide Inv, Run;
    EmptyInv();
  }

  lemma StoreParts(r: Repo)
    requires Inv(r)
    ensures PublishedOk(r.jobs, r.publications, r.nextId) && OutputsOk(r.attempts, r.staged, r.publications)
    ensures ReceiptsOk(r.publications, r.receipts) && EventsOk(r.publications, r.outbox, r.nextId)
    ensures IdempotencyOk(r.jobs, r.idempotency) && HistoryOk(r.publications, r.current)
  {
    hide Work, StagedOk, PublishedOk, OutputsOk, ReceiptsOk, EventsOk, IdempotencyOk, HistoryOk;
  }

  lemma SucceededJob(r: Repo, p: Id)
    requires Inv(r) && PublishedOk(r.jobs, r.publications, r.nextId) && p in r.publications
    ensures OwnJobSucceeded(r, p)
  {
    hide Inv, StaleOk, LeaseBacked, Backed;
    InvJob(r, r.publications[p].jobId);
  }

  lemma OutputsFact(r: Repo, p: Id)
    requires OutputsOk(r.attempts, r.staged, r.publications) && p in r.publications
    ensures OwnOutputs(r, p)
  {
  }

  lemma ReceiptsFact(r: Repo, p: Id)
    requires ReceiptsOk(r.publications, r.receipts) && p in r.publications
    ensures OneReceipt(r, p)
  {
    hide HasReceipt;
  }

  lemma CommitsFact(pubs: map<Id, Publication>, outbox: seq<Event>, nextId: Id, p: Id)
    requires EventsOk(pubs, outbox, nextId) && p in pubs
    ensures OneCommit(pubs, outbox, p)
  {
    hide HasCommit;
  }

  /** And the converse: every succeeded job has its publication, every receipt and every
      commit event belongs to one. */
  lemma NoCompletionWithoutPublication(calls: seq<Call>)
    ensures var r := FromEmpty(calls);
            && (forall id | id in r.jobs && r.jobs[id].state.Succeeded? ::
                  r.jobs[id].publicationId.Some? && r.jobs[id].publicationId.value in r.publications
                  && r.publications[r.jobs[id].publicationId.value].jobId == id)
            && (forall k | k in r.receipts :: r.receipts[k].id in r.publications)
            && (forall k | 0 <= k < |r.outbox| && r.outbox[k].body.PublicationCommitted? ::
                  r.outbox[k].aggregate.PublicationAggregate? && r.outbox[k].aggregate.id in r.publications)
  {
    var r := FromEmpty(calls);
    StoreParts(r);
    hide HasCommit, HasReceipt, Commits, StaleOk;
    forall id | id in r.jobs ensures JobOk(r.jobs[id]) { InvJob(r, id); }
  }

  // ----- immutability -----

  /** A publication lives forever, with the same outputs, dependencies, generation and
      predecessor; the only thing that can happen to it is to become stale, once. Its
      outputs and its receipt are likewise never rewritten. */
  lemma PublicationsAreImmutable(r: Repo, calls: seq<Call>, p: Id)
    requires Inv(r) && p in r.publications
    ensures ResultsKept(r, Run(r, calls), p)
  {
    hide Inv, AttemptsGrow, StagedGrow, JobsGrow, KeysGrow, OutboxGrows, Run, Identity;
    RunGrows(r, calls);
  }

  ghost predicate ResultsKept(r: Repo, later: Repo, p: Id)
    requires p in r.publications
  {
    && p in later.publications
    && Identity(later.publications[p]) == Identity(r.publications[p])
    && (r.publications[p].state.Stale? ==> later.publications[p] == r.publications[p])
    && (forall k | k in r.receipts :: k in later.receipts && later.receipts[k] == r.receipts[k])
    && r.impacts <= later.impacts
  }

  /** Only a successful completion moves a head. It moves exactly the head of its own case
      and key, to a new publication that supersedes the old head and is one generation on.
      Failing, expiring or cancelling a job never replaces a published result. */
  lemma OnlyCompletionMovesHeads(r: Repo, c: Call)
    requires Inv(r)
    ensures Backed(r)
    ensures Step(r, c).current != r.current ==> c.op.DoComplete? && HeadMoved(r, c, Step(r, c))
  {
    hide Inv, HeadMoved, Backed, CompleteAndPublish, Claim;
    InvBacked(r);
    if c.op.DoComplete? {
      CompletionMovesHead(r, c.op.jobId, c.op.token, c.op.resultKey, c.op.dependencies, c.op.completionKey, c.now);
    } else if c.op.DoClaim? {
      ClaimKeepsHeads(r, c.op.worker, c.op.leaseFor, c.op.kinds, c.now);
    } else if c.op.DoHeartbeat? || c.op.DoStage? || c.op.DoAcknowledgeCancel? || c.op.DoFail? || c.op.DoRequestCancel? {
      WorkerKeepsHeads(r, c);
    } else {
      OthersKeepHeads(r, c);
    }
  }

  lemma OthersKeepHeads(r: Repo, c: Call)
    requires Backed(r) && (c.op.DoSubmit? || c.op.DoCorrect? || c.op.DoDispatch?)
    ensures Step(r, c).current == r.current
  {
    hide Backed, Propagate;
    match c.op
    case DoSubmit(spec) =>
      hide RecordCorrection, MarkDispatched;
    case DoCorrect(caseId, correctionId, dependency) =>
      hide Submit, MarkDispatched;
    case DoDispatch(_) =>
      hide Submit, RecordCorrection;
  }

  ghost predicate HeadMoved(r: Repo, c: Call, r': Repo)
    requires c.op.DoComplete? && Backed(r)
  {
    var o := CompleteAndPublish(r, c.op.jobId, c.op.token, c.op.resultKey, c.op.dependencies, c.op.completionKey,
      c.now);
    o.result.Ok? &&
    var p := o.result.value;
    && p.id !in r.publications && r'.publications == r.publications[p.id := p]
    && r'.current == r.current[KeyOf(p) := p.id]
    && p.resultKey == c.op.resultKey && p.jobId == c.op.jobId && p.dependencies == c.op.dependencies
    && (if KeyOf(p) in r.current
        then p.supersedes == Some(r.current[KeyOf(p)])
          && p.generation == r.publications[r.current[KeyOf(p)]].generation + 1
        else p.supersedes == None && p.generation == 1)
  }

  lemma WorkerKeepsHeads(r: Repo, c: Call)
    requires Backed(r)
    requires c.op.DoHeartbeat? || c.op.DoStage? || c.op.DoAcknowledgeCancel? || c.op.DoFail? || c.op.DoRequestCancel?
    ensures Step(r, c).current == r.current
  {
    hide Settle, LeaseCheck, Backed, FailedState, StagedFor, EmitForJob;
    SettleKeepsReceipts(r, c.op.jobId, c.now);
    EmitKeepsHeads();
  }

  lemma EmitKeepsHeads()
    ensures forall r: Repo, job, body, now :: EmitForJob(r, job, body, now).current == r.current
  {
  }

  lemma CompletionMovesHead(r: Repo, jobId: Id, token: Id, key: string, deps: set<DependencyRef>, completion: string,
        now: Time)
    requires Inv(r) && Backed(r)
    ensures var r' := CompleteAndPublish(r, jobId, token, key, deps, completion, now).repo;
            r'.current != r.current ==> HeadMoved(r, Call(DoComplete(jobId, token, key, deps, completion), now), r')
  {
    hide Inv, Settle, StagedFor, Grows, Backed, LeaseCheck;
    SettleKeepsReceipts(r, jobId, now);
    SettleSafe(r, jobId, now);
    var s := Settle(r, jobId, now);
    NextIdFresh(s);
    var o := CompleteAndPublish(r, jobId, token, key, deps, completion, now);
    if o.repo.current != r.current {
      var p := NextPublication(s, s.jobs[jobId], s.jobs[jobId].lease.value, key, deps, now);
      assert o.result == Ok(p);
      assert s.jobs[jobId].id == jobId by { InvJob(s, jobId); }
    }
  }

  lemma {:induction false} ExpireAllKeepsHeads(r: Repo, ids: seq<Id>, now: Time)
    requires Backed(r) && forall id | id in ids :: id in r.jobs
    ensures ExpireAll(r, ids, now).current == r.current && ExpireAll(r, ids, now).publications == r.publications
    decreases |ids|
  {
    if ids != [] {
      assert ids[0] in ids;
      ExpireLeaseBacked(r, ids[0], now);
      var next := ExpireLease(r, ids[0], now);
      assert next.current == r.current && next.publications == r.publications;
      hide ExpireLease, Backed;
      ExpireAllKeepsHeads(next, ids[1..], now);
    }
  }

  lemma {:induction false} ClaimFirstKeepsHeads(r: Repo, eligible: seq<Job>, worker: string, leaseFor: Time, now: Time)
    ensures ClaimFirst(r, eligible, worker, leaseFor, now).0.current == r.current
    ensures ClaimFirst(r, eligible, worker, leaseFor, now).0.publications == r.publications
    decreases |eligible|
  {
    if eligible != [] && eligible[0].spec.DeadlinePassed(now) {
      ClaimFirstKeepsHeads(PutJob(r, DeadlineFailed(eligible[0], now)), eligible[1..], worker, leaseFor, now);
    }
  }

  lemma ClaimKeepsHeads(r: Repo, worker: string, leaseFor: Time, kinds: Option<set<string>>, now: Time)
    requires Backed(r)
    ensures Claim(r, worker, leaseFor, kinds, now).repo.current == r.current
    ensures Claim(r, worker, leaseFor, kinds, now).repo.publications == r.publications
  {
    hide ExpireAll, ClaimFirst, Eligible;
    OrderKnown(r);
    hide Backed;
    ExpireAllKeepsHeads(r, r.order, now);
    var s := ExpireAll(r, r.order, now);
    ClaimFirstKeepsHeads(s, Eligible(s, kinds, now), worker, leaseFor, now);
  }

  // ----- idempotent calls -----

  /** A submission can be repeated at any later time, even past its deadline: the same job
      comes back and nothing is written. The same key with another specification is a conflict. */
  lemma SubmitIsIdempotent(r: Repo, spec: JobSpec, now: Time, calls: seq<Call>, again: JobSpec, later: Time)
    requires Inv(r) && Backed(r) && Submit(r, spec, now).result.Ok?
    requires again.WellFormed() && KeyOfSpec(again) == KeyOfSpec(spec)
    ensures Inv(Submit(r, spec, now).repo)
    ensures var id := Submit(r, spec, now).result.value.id;
            var r' := Run(Submit(r, spec, now).repo, calls);
            && Backed(r') && id in r'.jobs
            && Submit(r', again, later)
               == Outcome(r', if again == spec then Ok(r'.jobs[id]) else Err(IdempotencyConflict))
  {
    var first := Submit(r, spec, now);
    SubmitSafe(r, spec, now);
    var r' := Run(first.repo, calls);
    RunGrows(first.repo, calls);
    hide Inv, Run, Grows;
    InvBacked(r');
    SubmittedKey(r, spec, now);
    KeyStays(first.repo, r', spec, first.result.value.id);
  }

  lemma SubmittedKey(r: Repo, spec: JobSpec, now: Time)
    requires Inv(r) && Backed(r) && Submit(r, spec, now).result.Ok?
    ensures var o := Submit(r, spec, now); var id := o.result.value.id;
            && KeyOfSpec(spec) in o.repo.idempotency && o.repo.idempotency[KeyOfSpec(spec)] == id
            && id in o.repo.jobs && o.repo.jobs[id].spec == spec
  {
    hide Inv;
  }

  lemma KeyStays(r: Repo, r': Repo, spec: JobSpec, id: Id)
    requires Grows(r, r') && id in r.jobs && r.jobs[id].spec == spec
    requires KeyOfSpec(spec) in r.idempotency && r.idempotency[KeyOfSpec(spec)] == id
    ensures KeyOfSpec(spec) in r'.idempotency && r'.idempotency[KeyOfSpec(spec)] == id
    ensures id in r'.jobs && r'.jobs[id].spec == spec
  {
    hide AttemptsGrow, StagedGrow, PublicationsGrow, ReceiptsGrow, OutboxGrows;
  }

  /** A completion can be repeated at any later time, with any token and any arguments: the
      publication of the first time comes back as it was, and nothing is written. */
  lemma CompletionIsIdempotent(r: Repo, jobId: Id, token: Id, key: string, deps: set<DependencyRef>, completion: string,
        now: Time, calls: seq<Call>, token': Id, key': string, deps': set<DependencyRef>, later: Time)
    requires Inv(r) && Backed(r) && key' != ""
    requires CompleteAndPublish(r, jobId, token, key, deps, completion, now).result.Ok?
    ensures Inv(CompleteAndPublish(r, jobId, token, key, deps, completion, now).repo)
    ensures var o := CompleteAndPublish(r, jobId, token, key, deps, completion, now);
            var r' := Run(o.repo, calls);
            && Backed(r')
            && CompleteAndPublish(r', jobId, token', key', deps', completion, later) == Outcome(r', o.result)
  {
    CompleteSafe(r, jobId, token, key, deps, completion, now);
    var o := CompleteAndPublish(r, jobId, token, key, deps, completion, now);
    var r' := Run(o.repo, calls);
    RunGrows(o.repo, calls);
    InvBacked(r');
    CompletionReceipt(r, jobId, token, key, deps, completion, now);
    hide Inv, Run, Backed, AttemptsGrow, StagedGrow, PublicationsGrow, JobsGrow, OutboxGrows, KeysGrow, Settle;
    hide LeaseCheck, Commit;
  }

  lemma CompletionReceipt(r: Repo, jobId: Id, token: Id, key: string, deps: set<DependencyRef>, completion: string,
        now: Time)
    requires Backed(r) && CompleteAndPublish(r, jobId, token, key, deps, completion, now).result.Ok?
    ensures var o := CompleteAndPublish(r, jobId, token, key, deps, completion, now);
            completion != "" && (jobId, completion) in o.repo.receipts
              && o.repo.receipts[(jobId, completion)] == o.result.value
  {
    hide Settle, StagedFor;
  }

  // ----- what a claim promises -----

  /** The job was claimable but its deadline had passed, and so it failed. */
  ghost predicate MissedDeadline(s: Repo, r': Repo, id: Id, now: Time)
    requires id in s.jobs
  {
    s.jobs[id].spec.DeadlinePassed(now) && id in r'.jobs && r'.jobs[id] == DeadlineFailed(s.jobs[id], now)
  }

  ghost predicate Untouched(s: Repo, r': Repo, id: Id)
    requires id in s.jobs
  {
    id in r'.jobs && r'.jobs[id] == s.jobs[id]
  }

  function RunningUnder(job: Job, lease: Lease, now: Time): Job {
    job.(state := Running, attemptCount := job.attemptCount + 1, lease := Some(lease), updatedAt := now)
  }

  /** The lease went to the first claimable job, in the order of availability, whose deadline
      has not passed; the claimable jobs before it failed, all others stay as they were. */
  ghost predicate FirstLeased(s: Repo, r': Repo, lease: Lease, kinds: Option<set<string>>, now: Time) {
    && lease.jobId in s.jobs && lease.jobId in r'.jobs
    && Claimable(s.jobs[lease.jobId], kinds, now) && !s.jobs[lease.jobId].spec.DeadlinePassed(now)
    && r'.jobs[lease.jobId] == RunningUnder(s.jobs[lease.jobId], lease, now)
    && forall id | id in s.jobs && id != lease.jobId ::
         if Claimable(s.jobs[id], kinds, now) && ClaimOrder(s.jobs[id], s.jobs[lease.jobId])
         then MissedDeadline(s, r', id, now)
         else Untouched(s, r', id)
  }

  /** No claimable job is still in time: they all failed, the others stay as they were. */
  ghost predicate NoneLeft(s: Repo, r': Repo, kinds: Option<set<string>>, now: Time) {
    forall id | id in s.jobs ::
      if Claimable(s.jobs[id], kinds, now) then MissedDeadline(s, r', id, now) else Untouched(s, r', id)
  }

  /** What a claim does with the jobs that stand once lapsed leases have been expired. */
  lemma ClaimFromSettled(r: Repo, worker: string, leaseFor: Time, kinds: Option<set<string>>, now: Time)
    requires Inv(r) && Backed(r) && worker != "" && leaseFor > 0
    ensures var s := ExpireAll(r, r.order, now); var o := Claim(r, worker, leaseFor, kinds, now);
            && o.result.Ok?
            && (o.result.value.Some? ==>
                  && FirstLeased(s, o.repo, o.result.value.value, kinds, now)
                  && o.result.value.value.worker == worker && o.result.value.value.leasedUntil == now + leaseFor)
            && (o.result.value.None? ==> NoneLeft(s, o.repo, kinds, now))
  {
    hide Inv, Grows, Backed, ExpireAll, Claim, ClaimFirst, Eligible, FirstLeased, NoneLeft, Sorted, WaitingList;
    hide Claimable;
    OrderKnown(r);
    ExpireAllSafe(r, r.order, now);
    var s := ExpireAll(r, r.order, now);
    EligibleExact(s, kinds, now);
    ClaimUnfolds(r, worker, leaseFor, kinds, now);
    ClaimFirstExact(s, Eligible(s, kinds, now), worker, leaseFor, kinds, now);
  }

  lemma ClaimUnfolds(r: Repo, worker: string, leaseFor: Time, kinds: Option<set<string>>, now: Time)
    requires Backed(r) && worker != "" && leaseFor > 0
    requires forall id | id in r.order :: id in r.jobs
    ensures var s := ExpireAll(r, r.order, now);
            var claimed := ClaimFirst(s, Eligible(s, kinds, now), worker, leaseFor, now);
            Claim(r, worker, leaseFor, kinds, now) == Outcome(claimed.0, Ok(claimed.1))
  {
    hide ExpireAll, ClaimFirst, Eligible, Backed;
  }

  /** The claim took position `k` of the list, or ran off its end. */
  ghost predicate Scanned(r: Repo, list: seq<Job>, k: nat, r': Repo, lease: Option<Lease>, worker: string,
        leaseFor: Time, now: Time)
    requires k <= |list|
  {
    && (forall i | 0 <= i < k ::
       list[i].spec.DeadlinePassed(now) && list[i].id in r'.jobs && r'.jobs[list[i].id] == DeadlineFailed(list[i], now))
    && (lease.None? <==> k == |list|)
    && (k < |list| ==>
          && !list[k].spec.DeadlinePassed(now) && list[k].id in r'.jobs
          && r'.jobs[list[k].id] == RunningUnder(list[k], lease.value, now)
          && lease.value.jobId == list[k].id && lease.value.worker == worker
             && lease.value.leasedUntil == now + leaseFor)
    && (forall id | id in r.jobs && (forall i | 0 <= i < |list| && i <= k :: list[i].id != id) ::
       id in r'.jobs && r'.jobs[id] == r.jobs[id])
  }

  lemma {:induction false} ClaimFirstScans(r: Repo, list: seq<Job>, worker: string, leaseFor: Time, now: Time)
    requires WaitingList(r, list)
    ensures exists k: nat :: k <= |list| &&
              Scanned(r, list, k, ClaimFirst(r, list, worker, leaseFor, now).0,
                ClaimFirst(r, list, worker, leaseFor, now).1, worker, leaseFor, now)
    decreases |list|
  {
    var (r', lease) := ClaimFirst(r, list, worker, leaseFor, now);
    if list == [] {
      assert Scanned(r, list, 0, r', lease, worker, leaseFor, now);
    } else if !list[0].spec.DeadlinePassed(now) {
      assert Scanned(r, list, 0, r', lease, worker, leaseFor, now);
    } else {
      var next := PutJob(r, DeadlineFailed(list[0], now));
      WaitingRest(r, list, now);
      ClaimFirstScans(next, list[1..], worker, leaseFor, now);
      var k: nat :| k <= |list[1..]| && Scanned(next, list[1..], k, r', lease, worker, leaseFor, now);
      ScanOneMore(r, list, k, r', lease, worker, leaseFor, now);
      assert Scanned(r, list, k + 1, r', lease, worker, leaseFor, now);
    }
  }

  lemma ScanOneMore(r: Repo, list: seq<Job>, k: nat, r': Repo, lease: Option<Lease>, worker: string, leaseFor: Time,
        now: Time)
    requires WaitingList(r, list) && list != [] && list[0].spec.DeadlinePassed(now) && k <= |list[1..]|
    requires Scanned(PutJob(r, DeadlineFailed(list[0], now)), list[1..], k, r', lease, worker, leaseFor, now)
    ensures Scanned(r, list, k + 1, r', lease, worker, leaseFor, now)
  {
    var next, rest, m := PutJob(r, DeadlineFailed(list[0], now)), list[1..], k + 1;
    assert forall i | 0 <= i < |rest| :: rest[i] == list[i + 1];
    forall i | 0 <= i < |rest| && i <= k ensures rest[i].id != list[0].id {}
    assert r'.jobs[list[0].id] == DeadlineFailed(list[0], now);
    forall i | 0 <= i < m
      ensures list[i].spec.DeadlinePassed(now) && list[i].id in r'.jobs
          && r'.jobs[list[i].id] == DeadlineFailed(list[i], now)
    {
      if i > 0 { assert rest[i - 1] == list[i]; }
    }
    forall id | id in r.jobs && (forall i | 0 <= i < |list| && i <= m :: list[i].id != id)
      ensures id in r'.jobs && r'.jobs[id] == r.jobs[id]
    {
      forall i | 0 <= i < |rest| && i <= k ensures rest[i].id != id { assert list[i + 1].id != id; }
      assert list[0].id != id;
      assert next.jobs[id] == r.jobs[id];
    }
  }

  ghost predicate AllClaimable(s: Repo, list: seq<Job>, kinds: Option<set<string>>, now: Time) {
    forall j :: j in list <==> j.id in s.jobs && s.jobs[j.id] == j && Claimable(j, kinds, now)
  }

  lemma ClaimFirstExact(s: Repo, list: seq<Job>, worker: string, leaseFor: Time, kinds: Option<set<string>>, now: Time)
    requires Inv(s) && WaitingList(s, list) && Sorted(list, ClaimOrder)
    requires forall j :: j in list <==> j.id in s.jobs && s.jobs[j.id] == j && Claimable(j, kinds, now)
    ensures var (r', lease) := ClaimFirst(s, list, worker, leaseFor, now);
            && (lease.Some? ==>
                  && FirstLeased(s, r', lease.value, kinds, now)
                  && lease.value.worker == worker && lease.value.leasedUntil == now + leaseFor)
            && (lease.None? ==> NoneLeft(s, r', kinds, now))
  {
    hide FirstLeased, NoneLeft, Sorted, WaitingList, Claimable, ClaimFirst, Inv, LeaseBacked, JobOk, Backed;
    hide DistinctIds;
    var (r', lease) := ClaimFirst(s, list, worker, leaseFor, now);
    ClaimFirstScans(s, list, worker, leaseFor, now);
    var k: nat :| k <= |list| && Scanned(s, list, k, r', lease, worker, leaseFor, now);
    forall id | id in s.jobs ensures s.jobs[id].id == id { InvJob(s, id); }
    if k < |list| {
      assert DistinctIds(list) by { WaitingDistinct(s, list); }
      ScanLeased(s, list, k, r', lease, worker, leaseFor, kinds, now);
    } else {
      ScanNone(s, list, r', lease, worker, leaseFor, kinds, now);
    }
  }

  lemma WaitingDistinct(r: Repo, list: seq<Job>)
    requires WaitingList(r, list)
    ensures DistinctIds(list)
  {
  }

  lemma ScanNone(s: Repo, list: seq<Job>, r': Repo, lease: Option<Lease>, worker: string, leaseFor: Time,
        kinds: Option<set<string>>, now: Time)
    requires Scanned(s, list, |list|, r', lease, worker, leaseFor, now) && AllClaimable(s, list, kinds, now)
    requires forall id | id in s.jobs :: s.jobs[id].id == id
    ensures lease.None? && NoneLeft(s, r', kinds, now)
  {
    hide Claimable;
    forall id | id in s.jobs
      ensures if Claimable(s.jobs[id], kinds, now) then MissedDeadline(s, r', id, now) else Untouched(s, r', id)
    {
      if Claimable(s.jobs[id], kinds, now) {
        assert s.jobs[id] in list;
        var i :| 0 <= i < |list| && list[i] == s.jobs[id];
      } else {
        forall i | 0 <= i < |list| ensures list[i].id != id { assert list[i] in list; }
      }
    }
  }

  lemma ScanLeased(s: Repo, list: seq<Job>, k: nat, r': Repo, lease: Option<Lease>, worker: string, leaseFor: Time,
        kinds: Option<set<string>>, now: Time)
    requires k < |list| && Scanned(s, list, k, r', lease, worker, leaseFor, now) && AllClaimable(s, list, kinds, now)
    requires Sorted(list, ClaimOrder) && DistinctIds(list)
    requires forall id | id in s.jobs :: s.jobs[id].id == id
    ensures lease.Some? && FirstLeased(s, r', lease.value, kinds, now)
    ensures lease.value.worker == worker && lease.value.leasedUntil == now + leaseFor
  {
    hide Claimable, ClaimOrder;
    var first := list[k];
    assert first in list;
    forall id | id in s.jobs && id != first.id
      ensures if Claimable(s.jobs[id], kinds, now) && ClaimOrder(s.jobs[id], first)
              then MissedDeadline(s, r', id, now) else Untouched(s, r', id)
    {
      if Claimable(s.jobs[id], kinds, now) {
        assert s.jobs[id] in list;
        var i :| 0 <= i < |list| && list[i] == s.jobs[id];
        if i < k {
          assert ClaimOrder(list[i], list[k]);
        } else {
          assert ClaimOrder(list[k], list[i]);
          assert !ClaimOrder(list[i], list[k]) by { ClaimOrderStrict(list[i], list[k]); }
          forall j | 0 <= j < |list| && j <= k ensures list[j].id != id {}
        }
      } else {
        forall j | 0 <= j < |list| && j <= k ensures list[j].id != id { assert list[j] in list; }
      }
    }
  }

  lemma ClaimOrderStrict(a: Job, b: Job)
    requires ClaimOrder(b, a) && a.id != b.id
    ensures !ClaimOrder(a, b)
  {
  }

  // ----- what a correction promises -----

  /** A correction that was not recorded before, in any repository: exact propagation, and
      nothing but publications, impacts and one event changes. */
  lemma CorrectionIsExact(r: Repo, caseId: string, correctionId: string, dep: DependencyRef, now: Time)
    requires ImpactsOf(r.impacts, caseId, correctionId) == []
    ensures var o := RecordCorrection(r, caseId, correctionId, dep, now); var ctx := Context(caseId, correctionId, now);
            && o.result.Ok? && o.repo.impacts == r.impacts + o.result.value
            && (forall id :: Recorded(o.result.value, id) <==> Affected(r.publications, caseId, dep, id))
            && (forall k | 0 <= k < |o.result.value| :: ExactImpact(r.publications, caseId, dep, o.result.value[k]))
            && (forall i, j | 0 <= i < j < |o.result.value| ::
               o.result.value[i].publicationId != o.result.value[j].publicationId)
            && o.repo.publications.Keys == r.publications.Keys
            && (forall id | id in r.publications ::
                  o.repo.publications[id] ==
                  if Affected(r.publications, caseId, dep, id) then MarkStale(r.publications[id], ctx)
                    else r.publications[id])
            && o.repo.(publications := r.publications, impacts := r.impacts, outbox := r.outbox, nextId := r.nextId)
               == r
            && |o.repo.outbox| == |r.outbox| + 1 && o.repo.outbox[..|r.outbox|] == r.outbox
            && o.repo.outbox[|r.outbox|].body == CorrectionRecorded(dep.kind, dep.targetId, ImpactedIds(o.result.value))
  {
    hide Affected, Recorded, ExactImpact, MarkStale, Propagate;
    PropagationIsExact(r.publications, dep, Context(caseId, correctionId, now), r.nextId);
  }

  /** Staleness is closed at the moment of the correction: a same-case publication that depends
      on the corrected item, or on the exact generation of an affected publication, is stale. */
  lemma StalenessIsClosed(r: Repo, caseId: string, correctionId: string, dep: DependencyRef, now: Time, id: Id)
    requires ImpactsOf(r.impacts, caseId, correctionId) == []
    requires id in r.publications && r.publications[id].caseId == caseId
    requires dep in r.publications[id].dependencies
          || exists q :: Affected(r.publications, caseId, dep, q) && q in r.publications
                         && PublicationRef(r.publications[q]) in r.publications[id].dependencies
    ensures var o := RecordCorrection(r, caseId, correctionId, dep, now);
            id in o.repo.publications && o.repo.publications[id].state.Stale?
  {
    hide Recorded, ExactImpact, Propagate, RecordCorrection;
    CorrectionIsExact(r, caseId, correctionId, dep, now);
    AffectedIsClosed(r.publications, caseId, dep, id);
  }

  lemma AffectedIsClosed(pubs: map<Id, Publication>, caseId: string, dep: DependencyRef, id: Id)
    requires id in pubs && pubs[id].caseId == caseId
    requires dep in pubs[id].dependencies
          || exists q :: Affected(pubs, caseId, dep, q) && q in pubs && PublicationRef(pubs[q]) in pubs[id].dependencies
    ensures Affected(pubs, caseId, dep, id)
  {
    if dep in pubs[id].dependencies {
      assert PathTo(pubs, caseId, dep, [id], id);
    } else {
      var q :| Affected(pubs, caseId, dep, q) && q in pubs && PublicationRef(pubs[q]) in pubs[id].dependencies;
      var path :| PathTo(pubs, caseId, dep, path, q);
      assert PathTo(pubs, caseId, dep, path + [id], id);
    }
  }

  /** Repeating a correction id, with the same or another dependency, is a no-op exactly when
      some impact was already recorded under it; otherwise it runs, and emits its event, again. */
  lemma RepeatedCorrectionIsNoOpExactly(r: Repo, caseId: string, correctionId: string, dep: DependencyRef, now: Time)
    ensures RecordCorrection(r, caseId, correctionId, dep, now).repo == r
            <==> exists i :: i in r.impacts && i.caseId == caseId && i.correctionId == correctionId
    ensures (exists i :: i in r.impacts && i.caseId == caseId && i.correctionId == correctionId) ==>
              RecordCorrection(r, caseId, correctionId, dep, now).result
                == Ok(ImpactsOf(r.impacts, caseId, correctionId))
  {
    hide Propagate;
    ImpactsOfAll(r.impacts, caseId, correctionId);
    var o := RecordCorrection(r, caseId, correctionId, dep, now);
    if ImpactsOf(r.impacts, caseId, correctionId) == [] {
      assert |o.repo.outbox| == |r.outbox| + 1;
    } else {
      assert ImpactsOf(r.impacts, caseId, correctionId)[0] in r.impacts;
    }
  }

  /** For example: nothing depends on the corrected item yet, and the same correction, recorded
      twice, leaves two events and no impact. */
  lemma RepeatedCorrectionExample(dep: DependencyRef)
    ensures var one := RecordCorrection(Empty(), "case", "fix", dep, 0).repo;
      var two := RecordCorrection(one, "case", "fix", dep, 1).repo;
      two != one && two.impacts == [] && |one.outbox| == 1 && |two.outbox| == 2
  {
    NothingToPropagate(dep, Context("case", "fix", 0), 0);
    var one := RecordCorrection(Empty(), "case", "fix", dep, 0).repo;
    NothingToPropagate(dep, Context("case", "fix", 1), one.nextId);
  }

  lemma NothingToPropagate(dep: DependencyRef, ctx: Context, nextId: Id)
    ensures Propagate(map[], dep, ctx, nextId).impacts == [] && Propagate(map[], dep, ctx, nextId).publications == map[]
  {
    var none: map<Id, Publication> := map[];
    var w := Start(none, dep, nextId);
    assert SortedIds(Dependents(none, ctx.caseId, dep)) == [] by { assert Dependents(none, ctx.caseId, dep) == {}; }
    assert Pop(w, none, ctx) == w.(queue := []);
    assert Drain(w, none, ctx) == Drain(Pop(w, none, ctx), none, ctx);
  }

  lemma {:induction false} ImpactsOfAll(impacts: seq<Impact>, caseId: string, correctionId: string)
    ensures forall i | i in impacts && i.caseId == caseId && i.correctionId == correctionId ::
        i in ImpactsOf(impacts, caseId, correctionId)
    decreases |impacts|
  {
    if impacts != [] {
      ImpactsOfAll(impacts[1..], caseId, correctionId);
    }
  }
}
