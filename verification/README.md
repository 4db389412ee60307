# A verified model of the analysis backend

This project models, in Dafny, the parts of the repository that decide what is true about
jobs, communities, stored evidence, recorded assertions, projections and priorities, and proves
what each of them promises. It has six components.

**Durable jobs** (`jobs_*.dfy`, `correction.dfy`). The lease-fenced repository of jobs, attempts,
staged outputs, publications, receipts and outbox events. `JobOperations` gives every public
operation as a function from one repository value to the next; the class
`JobRepository.InMemoryJobRepository` updates its dictionaries in place, with the source's loops,
and each method is proved to leave exactly the value its operation describes. `JobInvariant` and
`JobSteps` hold the invariant and its preservation, `JobRuns` and `JobResults` what follows over
runs of any calls with any arguments and any clock readings; `JobOutcomes` says what each call does
to every job, attempt and event in terms of the repository before it alone. `Correction` is the breadth-first
propagation of a correction through reverse dependencies, cycles included.

**Community lineage** (`lineage_*.dfy`). `build_lineage` from the labels of detector output to
the sorted result: one pass over the snapshots whose loops update the observation and identity
maps, the dormant and terminated lineages and the events. The loops are methods, each proved to
keep one invariant that ties maps, sets and events together and to compute a function of its
input; `LineageBuild` states what the lineage means, `LineageOutcome` adds scores, flags, reasons
and the final order, `LineageEvents` says what events, candidates and identities tell, and
`LineageShape` what all of it depends on.

**Immutable storage and audit anchor** (`storage_*.dfy`). `StorageModel` describes a visible
object directory and one `put`; `StorageRace` is a transition system of racing, crashing writers
that refines it; `StorageReports` and `StorageFilesystem` are reports; `StorageAudit` and
`StorageAnchor` are the receipt chain and its verifier loop.

**Bitemporal history** (`temporal_*.dfy`). Validation and reconstruction in memory, the WHERE
clauses over rows, their agreement, and the memoised numbering of corrections.

**Authorized projections** (`projection_*.dfy`). Authorization, projection, the projection cache
and the comparison of two projections.

**Evidence priority** (`priority_*.dfy`). Selection of known versions, rounded weighted points
with their interval, removal sensitivity and competition ranks; `PriorityPoints` holds the formula
without rounding that points, bounds, penalty and index stay close to.

`basics.dfy` holds the shared vocabulary: options, results, and sorting.

Identifiers that the program draws from a factory are naturals that never repeat; instants are
integers; scores and weights are real numbers. SHA-256 and canonical JSON are functions assumed to
be injective, passed as parameters. Clocks are parameters of every call and need not advance.

## Where the code differs from what one might expect

- A refused job call can change the repository: `_require_lease` may first expire a lease
  (`JobRuns.RefusedCallChangesExactly`, with an example in `JobRuns.RefusedCallExample`).
- Repeating a correction id is a no-op exactly when the first call recorded an impact
  (`JobResults.RepeatedCorrectionIsNoOpExactly`, with an example in
  `JobResults.RepeatedCorrectionExample`).
- Labels of communities are a tie-break: they matter exactly when two communities of a snapshot
  have the same members and differ otherwise (`LineageLabels.LabelsMatterExactly`). Even then
  they change no identity and no event, only which observation carries which confidence and
  metadata (`LineageShape.LineageIgnoresLabels`).
- Every resurgence is flagged as of low confidence, since its link always spans an observation
  gap (`LineageOutcome.FlaggedExactly`).
- A `put` with an empty media type publishes a directory that can never be read back, and so
  spoils its digest for every later `put` (`StorageModel.EmptyMediaSpoils`).
- Stored metadata went through JSON and request metadata did not: putting the same object or
  report again succeeds exactly when its metadata holds no tuple, and otherwise conflicts with
  itself (`StorageModel.PutIsIdempotent`, `StorageReports.PutReportIsIdempotent`, with an example
  in `StorageModel.TuplePutTwiceConflicts`).
- Two writers that anchor at the same time break the receipt chain unless they use one directory
  name (`StorageAudit.RacingWritersFork`, with an example in `StorageAudit.ForkExample`).
- The database and memory disagree about an assertion that has an event time without being an
  observed event (`TemporalSql.ReconstructionsAgree`, `TemporalSql.WindowContained`, with an
  example in `TemporalSql.DatedAllegationExample`).
- `assess_priority` takes each selected record out in turn and assesses the rest. On evidence with
  distinct dependencies it succeeds exactly when selected records corroborate nothing but
  themselves, and the next lower version that a removal brings back corroborates only itself or
  records that stay selected (`PrioritySensitivity.CrossCorroborationFails`). So it fails when one
  selected record corroborates another (`PrioritySensitivity.CrossExampleFails`), and also when no
  selected record corroborates anything but an older version does
  (`PrioritySensitivity.RevisedExampleFails`).

## Model

| member | source | states |
|---|---|---|
| JobSteps.StepSafe | apps/api/jobs/repository.py:112-662 | every call, with any arguments and clock, keeps the invariant over jobs, attempts, publications, receipts, impacts and outbox, and changes nothing that must last |
| JobSteps.EligibleExact | apps/api/jobs/repository.py:209-221 | the eligible jobs are exactly the claimable ones, each once, in order of availability, creation and id |
| JobRuns.RunGrows | apps/api/jobs/repository.py:112-662 | over any run: jobs keep identity and spec, finished attempts, stored outputs, publications, receipts, impacts and events are never rewritten |
| JobRuns.LeaseDiscipline | apps/api/jobs/repository.py:221-303 | in every reachable repository a job runs iff it has a lease, the lease's attempt is its only open one and agrees with it, attempts are numbered 1 to the attempt count without gap or repeat, within the budget |
| JobRuns.NoLateAttempt | apps/api/jobs/repository.py:221-245 | no attempt ever starts at or after its job's deadline |
| JobRuns.StaleTokenFencedForever | apps/api/jobs/repository.py:271-303 | a token whose attempt has finished can never again change anything beyond the lease expiry that the clock dictates, after any further calls |
| JobRuns.RefusedCallChangesExactly | apps/api/jobs/repository.py:154-190 | a refused worker call changes the repository iff the job's lease has lapsed at the caller's clock |
| JobRuns.RefusedCallExample | apps/api/jobs/repository.py:271-303 | a concrete run in which a refused heartbeat requeues the job |
| JobRuns.TerminalForever | apps/api/jobs/repository.py:305-337 | succeeded, failed and cancelled are absorbing over every run |
| JobRuns.CancellationSticks | apps/api/jobs/repository.py:305-357 | a job with a cancellation request stays running or cancelled, keeps the first request and never publishes; cancelled implies requested |
| JobRuns.BoundedLife | apps/api/jobs/repository.py:154-445 | in any run a job changes state at most as often as its rank, 2 * max_attempts for a new job |
| JobResults.HistoryIsLinear | apps/api/jobs/repository.py:460-531 | each case and result key has generations 1 to n, one publication each, linked by supersedes, with the head at n |
| JobResults.CompletionsCorrespond | apps/api/jobs/repository.py:460-531 | every publication has exactly one succeeded job, one receipt and one commit event, and its outputs are its own attempt's non-empty staged outputs |
| JobResults.NoCompletionWithoutPublication | apps/api/jobs/repository.py:460-531 | every succeeded job, receipt and commit event belongs to a publication |
| JobResults.PublicationsAreImmutable | apps/api/jobs/repository.py:460-618 | over any run a publication keeps outputs, dependencies, generation and predecessor; it can only become stale, once |
| JobResults.OnlyCompletionMovesHeads | apps/api/jobs/repository.py:487-510 | only a successful completion moves a head, its own, to a new publication one generation on |
| JobResults.SubmitIsIdempotent | apps/api/jobs/repository.py:112-145 | a repeated submission returns the job unchanged at any later time; another spec under its key is a conflict |
| JobResults.CompletionIsIdempotent | apps/api/jobs/repository.py:447-480 | a repeated completion returns its receipt and changes nothing, at any later time |
| JobOutcomes.ClaimTakesTheFirst | apps/api/jobs/repository.py:192-269 | from the repository before a claim: afterwards no job runs under a lapsed lease; a job whose lease had lapsed is cancelled if requested, else failed if its budget was spent, else waits from now, misses its deadline or is leased by this claim; the leased job is the ready one that comes first among those whose deadline has not passed, the ready ones before it that missed theirs fail, and every other job and attempt stays as it was |
| JobOutcomes.ClaimReports | apps/api/jobs/repository.py:154-269 | a claim emits one event for every lapsed lease, saying where its job went, and one for the lease it grants, and no other |
| JobOutcomes.HandoverExample | apps/api/jobs/repository.py:192-269 | a concrete run: a job leased by one worker and abandoned is leased again, as its second attempt, by the claim of another |
| JobOutcomes.OnlyTheHolder | apps/api/jobs/repository.py:271-280 | a worker's call gets past the lease check iff the job runs under that very token and the lease has not lapsed; otherwise its only effect is the lapse, if there is one |
| JobOutcomes.HeartbeatExactly | apps/api/jobs/repository.py:282-303 | by the holder, moves the end of lease and attempt to now plus the term, and nothing else; refused otherwise |
| JobOutcomes.RequestCancelExactly | apps/api/jobs/repository.py:305-337 | a waiting job is cancelled at once, a running one keeps running with its first request, one with a lapsed lease is settled first, a finished one is left alone |
| JobOutcomes.AcknowledgeExactly | apps/api/jobs/repository.py:339-357 | by the holder, cancels the job and its attempt iff cancellation was requested |
| JobOutcomes.StageExactly | apps/api/jobs/repository.py:359-400 | by the holder and without a cancellation request, stores the output under a new name, returns it under its own, refuses a different one |
| JobOutcomes.FailExactly | apps/api/jobs/repository.py:402-445 | by the holder: cancelled iff requested; else the job waits until now plus the delay iff attempts remain and that instant is before the deadline; else failed; attempt, reason and event to match |
| JobOutcomes.CompleteExactly | apps/api/jobs/repository.py:447-531 | by the holder, without a cancellation request and with something staged, publishes exactly the staged outputs as the next generation of its key, with receipt, head, event and finished attempt; otherwise the receipt or a refusal |
| JobOutcomes.SubmitExactly | apps/api/jobs/repository.py:112-145 | a new key before the deadline makes one queued job and one event; a known key its job or a conflict; otherwise refused |
| JobOutcomes.DispatchExactly | apps/api/jobs/repository.py:647-662 | marks the one event with the id with the first instant, and no other |
| JobOutcomes.AffectedIsLeast | apps/api/jobs/repository.py:569-618 | the affected publications are the least set that holds whatever in the case depends on the corrected item or on one of them |
| JobOutcomes.CorrectionMarksExactly | apps/api/jobs/repository.py:551-633 | a correction that is not recorded yet turns each publication stale iff it is affected, keeping an earlier instant and reason |
| JobResults.CorrectionIsExact | apps/api/jobs/repository.py:551-633 | a new correction records one impact per affected publication at its shortest depth, marks exactly those stale without overwriting, and emits one event |
| JobResults.StalenessIsClosed | apps/api/jobs/repository.py:569-618 | after a correction everything in the case that depends on the corrected item or on an affected publication is stale |
| JobResults.RepeatedCorrectionIsNoOpExactly | apps/api/jobs/repository.py:561-568 | recording a correction changes nothing iff an impact was already recorded under its id |
| JobResults.RepeatedCorrectionExample | apps/api/jobs/repository.py:561-633 | a concrete correction without dependents, recorded twice, that emits two events |
| Correction.PropagationIsExact | apps/api/jobs/repository.py:569-618 | on any, even cyclic, dependency graph the breadth-first walk reaches exactly the affected publications, each once, at its shortest distance |
| JobTypes.PublicationRefInjective | apps/api/jobs/repository.py:609-617 | the reference by which publications depend on one another names one publication and one generation |
| JobRepository.InMemoryJobRepository.constructor | apps/api/jobs/repository.py:65-83 | the empty repository satisfies the invariant |
| JobRepository.InMemoryJobRepository.Submit | apps/api/jobs/repository.py:112-145 | submits in place exactly as the operation describes, keeping the invariant |
| JobRepository.InMemoryJobRepository.Claim | apps/api/jobs/repository.py:192-269 | the two loops of a claim, in place, equal to the operation that JobOutcomes.ClaimTakesTheFirst describes |
| JobRepository.InMemoryJobRepository.RequireLease | apps/api/jobs/repository.py:271-280 | the lease check with its expiry, in place |
| JobRepository.InMemoryJobRepository.Heartbeat | apps/api/jobs/repository.py:282-303 | renews lease and attempt in place |
| JobRepository.InMemoryJobRepository.RequestCancel | apps/api/jobs/repository.py:305-337 | requests cancellation in place |
| JobRepository.InMemoryJobRepository.AcknowledgeCancel | apps/api/jobs/repository.py:339-357 | acknowledges cancellation in place |
| JobRepository.InMemoryJobRepository.StageOutput | apps/api/jobs/repository.py:359-400 | stages an output in place, or returns the one already staged, or refuses a different one |
| JobRepository.InMemoryJobRepository.Fail | apps/api/jobs/repository.py:402-445 | ends the attempt in place, equal to the operation that JobOutcomes.FailExactly describes |
| JobRepository.InMemoryJobRepository.CompleteAndPublish | apps/api/jobs/repository.py:447-531 | completes and publishes in place |
| JobRepository.InMemoryJobRepository.RecordCorrection | apps/api/jobs/repository.py:551-633 | drives the queue and the seen set in place, equal to the propagation that is proved exact |
| JobRepository.InMemoryJobRepository.MarkOutboxDispatched | apps/api/jobs/repository.py:647-662 | marks the first event with the id as dispatched in place, once |
| JobRepository.ReverseIndex | apps/api/jobs/repository.py:569-578 | the reverse index lists exactly the same-case dependents of every reference |
| LineageLabels.LabelsMatterExactly | analytics/lineage/tracker.py:49-83 | relabelling the communities of a snapshot never changes the members, confidence or metadata of any observation iff communities with the same members are otherwise alike |
| LineageLabels.LabelsDecide | analytics/lineage/tracker.py:63-69 | exchanging the labels of two communities with equal members that differ otherwise does change the observations |
| LineageShape.InputIgnoresLabelsExactly | analytics/lineage/tracker.py:56-83 | over all snapshots, relabelling never changes what the pass is given iff in every snapshot communities with the same members are otherwise alike |
| LineageShape.LineageIgnoresLabels | analytics/lineage/tracker.py:54-456 | any relabelling of any snapshots leaves identities, events, scores, competing marks and all reasons but uncertain input as they are |
| LineageShape.MembersDetermineTheLineage | analytics/lineage/tracker.py:150-456 | identities, events and competing marks depend on nothing but which member sets are observed where |
| LineageShape.NotesDifferInUncertaintyOnly | analytics/lineage/tracker.py:94-121 | confidence and metadata change no score, and no reason but uncertain input |
| LineageModel.ScoresAreSimilarities | analytics/lineage/tracker.py:29-46 | both scores lie in 0 to 1, are symmetric, Jaccard never exceeds overlap, and 1 means equality or containment |
| LineageModel.ScoreIsUnit | analytics/lineage/tracker.py:86-97 | the weighted score lies in 0 to 1 (what it is: LineageModel.ScoreIsMean, LineageModel.ScoreIsLinear) |
| LineageModel.SimilaritiesAreRatios | analytics/lineage/tracker.py:29-46 | both similarities are the size of the intersection over that of the union and of the smaller side |
| LineageModel.ScoreIsMean | analytics/lineage/tracker.py:94-96 | for communities that are not empty the score lies between Jaccard and overlap, is 1 for equal ones, and is Jaccard with all weight on it and overlap with none |
| LineageModel.ScoreIsLinear | analytics/lineage/tracker.py:94-96 | the score under the mean of two weights is the mean of the two scores |
| LineageModel.AcceptedExactly | analytics/lineage/tracker.py:97-103 | an adjacent link is accepted iff one similarity reaches its threshold; an unchanged community always has one |
| LineageModel.ResurgesExactly | analytics/lineage/tracker.py:340-357 | a resurgence is possible iff the earlier one has no child, the later no parent, the gap is within the maximum and one similarity reaches its resurgence threshold |
| LineageModel.FatesExclude | analytics/lineage/tracker.py:216-338 | no children, a continuation, or branching: always exactly one of the three |
| LineageModel.ChildKinds | analytics/lineage/tracker.py:234-338 | a child with parents continues one, shares a split or is a merge |
| LineageTracker.AdjacentLinks | analytics/lineage/tracker.py:167-179 | the triple loop links exactly the accepted pairs, by parent and by child in order, and scores every adjacent pair |
| LineageTracker.Deaths | analytics/lineage/tracker.py:216-232 | the first loop registers exactly the childless parents as dead and keeps the invariant |
| LineageTracker.Continuations | analytics/lineage/tracker.py:233-262 | the second loop gives a lineage to exactly the children that continue one parent |
| LineageTracker.SplitPhase | analytics/lineage/tracker.py:264-300 | the third loop registers exactly the splits and gives their children lineages |
| LineageTracker.MergePhase | analytics/lineage/tracker.py:302-338 | the fourth loop registers exactly the merges |
| LineageBuilder.DieKeeps | analytics/lineage/tracker.py:219-232 | a death keeps the whole invariant of maps, sets and events |
| LineageBuilder.GoOnKeeps | analytics/lineage/tracker.py:240-262 | going on by continuation or resurgence keeps it |
| LineageBuilder.ForkKeeps | analytics/lineage/tracker.py:272-278 | a new lineage for the child of a branch keeps it |
| LineageBuilder.BearKeeps | analytics/lineage/tracker.py:409-423 | a birth keeps it |
| LineageBuilder.SplitKeeps | analytics/lineage/tracker.py:264-300 | registering a split keeps it |
| LineageBuilder.MergeKeeps | analytics/lineage/tracker.py:302-338 | registering a merge keeps it |
| LineageResurgence.ListOffers | analytics/lineage/tracker.py:340-357 | the options are exactly the acceptable pairs of dormant lineage and unassigned child within the gap, each with its candidate |
| LineageResurgence.ListingOrderIrrelevant | analytics/lineage/tracker.py:359-367 | the sorted options do not depend on the order in which dormant lineages are listed |
| LineageResurgence.Resurge | analytics/lineage/tracker.py:368-407 | the loop with its used sets chooses the greedy matching, applies it, and marks the choices that compete with another |
| LineageResurgence.Births | analytics/lineage/tracker.py:409-423 | everything left over in the snapshot is born, and nothing else changes |
| LineageMatching.GreedyIsStable | analytics/lineage/tracker.py:368-373 | an option not chosen shares its child or lineage with a chosen one of at least its score |
| LineageMatching.GreedyTakesTheFirst | analytics/lineage/tracker.py:368-373 | an option that was not taken lost its lineage or child to one listed before it |
| LineageMatching.GreedyIsHalfOptimal | analytics/lineage/tracker.py:343-407 | the chosen total is at least half that of any matching among the options |
| LineageMatching.TiesExact | analytics/lineage/tracker.py:374-385 | a chosen option is marked as tied iff some free competitor for its child scores less than the margin below it; no free competitor scores above it |
| LineageResult.CompetingExactly | analytics/lineage/tracker.py:374-385 | the same for the resurgences of a snapshot: marked iff a dormant lineage that no earlier choice took was an option for the child within the margin |
| LineageResult.RankDecides | analytics/lineage/tracker.py:359-373 | an option that does not come about lost its lineage or child to one of higher score, or of equal score and before it by the tie-breaks |
| LineageResult.Snapshot | analytics/lineage/tracker.py:212-423 | one round of the main loop settles the next snapshot and leaves all earlier matchings as they were |
| LineageResult.SnapshotMatched | analytics/lineage/tracker.py:343-407 | the resurgences that the events record are a stable, half-optimal matching of the lineages that could resurge |
| LineageBuild.BuildLineage | analytics/lineage/tracker.py:150-445 | the whole pass equals a function of its input, establishes the invariant, stable matchings in every snapshot and exact candidates |
| LineageOutcome.BuildResult | analytics/lineage/tracker.py:150-456 | the complete result: that lineage with every event and candidate scored, flagged and given its reasons, in final order (what the scores, reasons and order are: LineageOutcome.ScoresAreMeans, LineageOutcome.EventReasonsExactly, LineageOutcome.EventsInOrder) |
| LineageOutcome.FlaggedExactly | analytics/lineage/tracker.py:221-407 | an event is flagged iff it gives a reason; a resurgence always is, and names a competing match iff it was marked |
| LineageOutcome.ScoredExactly | analytics/lineage/tracker.py:245-336 | births and deaths have no score; every other event has the least score among its links, within 0 to 1 |
| LineageOutcome.ScoresAreMeans | analytics/lineage/tracker.py:245-336 | an event's score lies between the least Jaccard and the least overlap of its links, and is one of them with all weight on one side |
| LineageOutcome.UnchangedContinues | analytics/lineage/tracker.py:94-262 | a community that is there again unchanged in the next snapshot is linked to itself, and as its only link continues with score 1 |
| LineageOutcome.ReasonsExactly | analytics/lineage/tracker.py:97-121 | uncertain input iff a confidence is below the threshold on either side, an observation gap iff a snapshot was missed |
| LineageOutcome.EventReasonsExactly | analytics/lineage/tracker.py:221-407 | an event gives exactly the reasons of its links, a birth or death that of its one observation, and a resurgence a competing match iff marked |
| LineageOutcome.NearExactly | analytics/lineage/tracker.py:97-109 | a link is near its threshold iff it is material and neither similarity reaches the margin above its threshold |
| LineageOutcome.EventOrderDetermined | analytics/lineage/tracker.py:132-147 | sort keys tell events apart, so their final order does not depend on the order of emission |
| LineageOutcome.CandidateOrderDetermined | analytics/lineage/tracker.py:124-129 | the same for the candidates |
| LineageOutcome.EventsInOrder | analytics/lineage/tracker.py:132-147 | events are in order of snapshot, then kind, then parents, then children |
| LineageOutcome.CandidatesInOrder | analytics/lineage/tracker.py:124-129 | candidates are in order of parent, child and gap |
| LineageEvents.EventsTellLineages | analytics/lineage/tracker.py:216-423 | every event names the lineages of its observations in their order, happens in the snapshot of its children or right after its parent, across a bounded gap iff it is a resurgence, and its continuing child has its parent's lineage |
| LineageEvents.CandidatesTell | analytics/lineage/tracker.py:86-121 | every candidate carries its gap, both similarities, a score between them, and the reasons of its link; flagged iff there is one |
| LineageEvents.ReasonsInOrder | analytics/lineage/tracker.py:105-111 | a link gives its reasons in the order in which they are tested, a resurgence adds a competing match last, splits and merges list theirs alphabetically, none twice |
| LineageEvents.IdentitiesInOrder | analytics/lineage/tracker.py:446-456 | the identities come numbered from one without gap, each with exactly its lineage's observations in order of snapshot |
| LineageBuild.IdentitiesPartition | analytics/lineage/tracker.py:185-423 | every observation has exactly one lineage and one place in it |
| LineageBuild.IdentitiesAdvance | analytics/lineage/tracker.py:234-407 | observations of a snapshot never share a lineage; along one, snapshots increase by one by continuation or over a gap of 1 to the maximum by resurgence |
| LineageBuild.EventsAreLinks | analytics/lineage/tracker.py:172-338 | an adjacent pair occurs in a continuation, split or merge iff its link was accepted; a pair across a gap occurs in a resurgence iff it goes on that way |
| LineageBuild.OneFate | analytics/lineage/tracker.py:216-338 | every observation before the last snapshot has exactly one of death, continuation, branching |
| LineageBuild.FinalPass | analytics/lineage/tracker.py:425-445 | after the final pass a candidate is accepted iff its pair occurs in an event, and no such pair is missing |
| LineageBuild.BranchingEndsIdentities | analytics/lineage/tracker.py:264-313 | the lineage of a split or merge parent ends with it, is terminated and never dormant |
| LineageBuild.BranchesAreFresh | analytics/lineage/tracker.py:264-321 | a child of a split or merge starts its lineage, whose number exceeds its parents' |
| LineageBuild.LineageGraphIsAcyclic | analytics/lineage/tracker.py:264-338 | along any path of the lineage graph numbers increase, so there is no cycle |
| LineageBuild.Accounting | analytics/lineage/tracker.py:185-423 | observations equal identities plus continuations plus resurgences; deaths minus resurgences of a lineage is 1 iff it is dormant and 0 otherwise; no event twice; births are the parentless starts |
| StorageModel.HealthyReads | apps/api/storage/filesystem.py:210-259 | a complete visible object reads back iff its media type is not empty |
| StorageModel.ContentIsAddressed | apps/api/storage/filesystem.py:251-259 | whatever happened to the files, returned content has the digest asked for |
| StorageModel.PutAnswers | apps/api/storage/filesystem.py:161-208 | the exact condition of each answer of `put` |
| StorageModel.PutExactly | apps/api/storage/filesystem.py:161-208 | from the objects before it: refused for the digest or the metadata and then nothing changes; new bytes leave one directory with the bytes and a manifest of this instant; known bytes change nothing and return the first object iff media type and metadata are the same |
| StorageModel.ReadsExactly | apps/api/storage/filesystem.py:210-259 | whatever is in the directories: content is returned iff both files are there, the manifest has its own hash and names contract, digest, media type and size, and the bytes have size and digest |
| StorageModel.PutIsIdempotent | apps/api/storage/filesystem.py:187-208 | the same bytes, media type and metadata again change nothing; they return the object first stored iff the metadata holds no tuple, else conflict |
| StorageModel.TuplePutTwiceConflicts | apps/api/storage/filesystem.py:187-208 | a concrete request that succeeds on an empty store and then conflicts with itself |
| StorageMetadata.ParsedExact | apps/api/storage/filesystem.py:68-78 | JSON gives back a value unchanged iff it holds no tuple, never yields one, and keeps what is representable so |
| StorageMetadata.SurvivesExactly | apps/api/storage/filesystem.py:68-78 | the same for metadata, and a second round trip changes nothing more |
| StorageMetadata.OccurrencesDecide | apps/api/storage/filesystem.py:68-78 | metadata is written iff no value that JSON refuses occurs in it at any depth, survives iff no tuple does, and comes back without any |
| StorageModel.EmptyMediaSpoils | apps/api/storage/filesystem.py:172-190 | an empty media type publishes an unreadable object and makes every later put of the bytes fail |
| StorageRace.NextKeeps | apps/api/storage/filesystem.py:139-208 | every step of every writer keeps the invariant of the race |
| StorageRace.NothingPartialIsVisible | apps/api/storage/filesystem.py:139-159 | over every interleaving visible objects are complete, stay as they are, and have at most one winner per digest |
| StorageRace.PutsAreLinearizable | apps/api/storage/filesystem.py:139-208 | every run of racing, crashing writers has a log of whole puts that leads to the visible objects and gives the same answers |
| StorageRace.LogRespectsRealTime | apps/api/storage/filesystem.py:161-208 | a put that ended before another began is logged before it |
| StorageRace.NobodyIsStuck | apps/api/storage/filesystem.py:139-208 | in any reachable state of the race, with others crashed halfway or overtaking, a writer that has not crashed comes to its answer in at most eight steps of its own |
| StorageRace.SuccessesAgree | apps/api/storage/filesystem.py:189-208 | all successful puts of the same bytes return the same stored object, which reads back with those bytes |
| StorageReports.PutReportOutcome | apps/api/storage/filesystem.py:350-403 | what a successful `put_report` has stored, and under which digest |
| StorageReports.PutReportExactly | apps/api/storage/filesystem.py:350-403 | from the store before it: what refuses a report, in order, and what it leaves in each case; the manifest it writes names content, dependencies in order of their names, and metadata |
| StorageReports.GetReportExactly | apps/api/storage/filesystem.py:444-502 | a report is read iff its file has its own digest, key and contract and can be built, and every object it refers to is there as referenced; the answer holds their bytes |
| StorageReports.ReportRoundTrip | apps/api/storage/filesystem.py:484-502 | a stored report is reconstructed with its content and every dependency's content from every store grown out of its own |
| StorageReports.ReportsStayReconstructable | apps/api/storage/filesystem.py:350-502 | the same after any sequence of later puts, failing ones included |
| StorageReports.ReportIsDetermined | apps/api/storage/filesystem.py:444-502 | two stores, damaged or not, that both reconstruct a report digest agree on everything but the recorded time |
| StorageReports.PutReportIsIdempotent | apps/api/storage/filesystem.py:375-403 | the same report again, its dependencies in any order, stores nothing; it returns the manifest first stored iff its metadata holds no tuple, else conflicts |
| StorageReports.FetchAllExact | apps/api/storage/filesystem.py:496-501 | the dependency contents are fetched iff every one is intact, and then each under its name |
| StorageFilesystem.FilesystemStorage.PutObject | apps/api/storage/filesystem.py:161-208 | `put` in place equals the single step |
| StorageFilesystem.FilesystemStorage.PutReport | apps/api/storage/filesystem.py:350-403 | `put_report` in place equals its specification and only grows the store |
| StorageFilesystem.FilesystemStorage.GetReport | apps/api/storage/filesystem.py:484-502 | `get_report` with its loop equals its specification |
| StorageAudit.AnchorExact | apps/api/storage/filesystem.py:561-598 | a single writer's anchor returns the receipt that is there, appends one linked to the last, or refuses and changes nothing (which of them: StorageAudit.AnchorAnswersExactly) |
| StorageAudit.AnchorAnswersExactly | apps/api/storage/filesystem.py:561-598 | over sound streams: accepted iff the very checkpoint is there, or its id is new and the stream is empty or ends below it; the stream grows iff the second, by one receipt that points at the last; anything else is a conflict |
| StorageAudit.ReceiptsKeepVerifying | apps/api/storage/filesystem.py:561-660 | every receipt ever returned verifies, at once and after any further anchoring |
| StorageAudit.VerifiesExactly | apps/api/storage/filesystem.py:600-660 | whatever happened to the files: a receipt verifies iff, in the order of their numbers, they are genuine, increase, each holds the hash of the one before, one of them holds the receipt and no other has its hash |
| StorageAudit.AnchoringIsIdempotent | apps/api/storage/filesystem.py:566-573 | anchoring a checkpoint again at any later time changes nothing and returns its receipt |
| StorageAudit.SequencesIncrease | apps/api/storage/filesystem.py:574-580 | sequences strictly increase along every stream, whatever is anchored |
| StorageAudit.VerifiedHistoriesAgree | apps/api/storage/filesystem.py:632-660 | two streams, tampered with or not, that verify receipts with one hash are identical up to that receipt |
| StorageAudit.RacingWritersFork | apps/api/storage/filesystem.py:561-598 | two writers that read the same stream and both publish keep the chain iff they use one name; otherwise nothing in it verifies again |
| StorageAudit.ForkExample | apps/api/storage/filesystem.py:561-598 | two concrete checkpoints anchored at once on an empty stream, neither of which verifies |
| StorageAudit.RacingAnswers | apps/api/storage/filesystem.py:561-598 | under two names both racing writers are told of success; under one name the second gets the first one's receipt for the same checkpoint and a conflict for another |
| StorageAnchor.FilesystemAuditAnchor.AnchorCheckpoint | apps/api/storage/filesystem.py:561-598 | `anchor` in place, with its loop, equals its specification and keeps streams sound |
| StorageAnchor.FilesystemAuditAnchor.Verify | apps/api/storage/filesystem.py:632-660 | the verifier loop accepts iff the whole chain is unbroken, the receipt is in it, and the expected chain hash matches |
| TemporalModel.OverlapIsCommonInstant | apps/api/temporal/models.py:37-44 | intervals overlap iff they have an instant in common |
| TemporalModel.PointWithinWindow | apps/api/temporal/models.py:117-127 | what applies at an instant applies during every window around it |
| TemporalRepository.Validate | apps/api/temporal/repository.py:34-64 | the loops accept iff ids are distinct, assertions stay in a case, recorded intervals of an assertion are pairwise disjoint and named predecessors directly precede |
| TemporalRepository.NeighboursSuffice | apps/api/temporal/repository.py:52-56 | disjoint neighbours in recorded order make all pairs disjoint |
| TemporalRepository.Load | apps/api/temporal/repository.py:19-32 | the constructor sorts and keeps exactly the consistent histories |
| TemporalRepository.LoadOrderIrrelevant | apps/api/temporal/repository.py:19-29 | the order in which revisions are supplied makes no difference |
| TemporalRepository.ReconstructExact | apps/api/temporal/repository.py:82-105 | reconstructions return exactly the revisions that answer |
| TemporalRepository.AnswersExactly | apps/api/temporal/models.py:108-127 | in instants: recorded by then and not yet replaced, in the case asked for, and valid then, an observed event at its own instant alone; for a window, with an instant in common |
| TemporalRepository.ReconstructInOrder | apps/api/temporal/repository.py:82-105 | both reconstructions are in the order of revision ids |
| TemporalRepository.OneBelief | apps/api/temporal/repository.py:82-105 | any point or window reconstruction returns at most one revision of an assertion |
| TemporalRepository.OneBeliefOnlyIf | apps/api/temporal/repository.py:52-56 | recorded intervals are disjoint iff no instant of knowledge shows two revisions of an assertion |
| TemporalRepository.WindowsContainPoints | apps/api/temporal/repository.py:82-105 | every answer at a point is among the answers for any window around it |
| TemporalSql.RowRoundTrip | apps/api/persistence/postgres.py:246-304 | a record inserted as a row and read back with its successor is the revision memory holds |
| TemporalSql.SupersededWhenEnded | apps/api/persistence/postgres.py:153-160 | a row has a known successor iff its recorded interval has ended |
| TemporalSql.ValidityAgrees | apps/api/persistence/harbor_lantern.py:314-323 | point and interval encodings agree with memory at every instant iff an event time belongs to an observed event, or its interval has no other instant |
| TemporalSql.ReconstructionsAgree | apps/api/persistence/postgres.py:144-180 | over linear correction chains both reconstructions select the same revisions at every point iff no record breaks the rule on event times |
| TemporalSql.DatedAllegationExample | apps/api/persistence/postgres.py:144-180 | a concrete record that memory returns and the database does not |
| TemporalSql.WindowContained | apps/api/persistence/postgres.py:185-227 | the window rows are memory's answers less those whose event lies outside the window |
| TemporalSql.LaterRowsChangeNothing | apps/api/persistence/postgres.py:149-169 | rows recorded after the moment of knowledge change no answer about it |
| TemporalSql.LaterRecordsChangeNothing | apps/api/temporal/repository.py:82-105 | the same for memory, although later records end recorded intervals |
| TemporalNumbers.RevisionNumbers.Number | apps/api/persistence/harbor_lantern.py:139-162 | the memoised recursion terminates and returns iff the chain is acyclic, known and inside one assertion, and then its length |
| TemporalNumbers.RevisionNumbers.NumberAll | apps/api/persistence/harbor_lantern.py:132-166 | in any order of keys, all numbers iff all chains are so |
| TemporalNumbers.CycleHasNoRoot | apps/api/persistence/harbor_lantern.py:142-143 | a key met again on the path of visited keys has no root |
| TemporalNumbers.NumberingIsUnique | apps/api/persistence/harbor_lantern.py:164-166 | the numbers do not depend on the order of the keys |
| TemporalNumbers.NumbersAreConsecutive | apps/api/persistence/harbor_lantern.py:146-159 | a correction's number is one more than its predecessor's, and first revisions have one |
| ProjectionModel.ServeIsTransparent | apps/api/service/platform.py:176-192 | with a cache of genuine entries the answer is the one without a cache, and entries stay genuine |
| ProjectionModel.AnswersIgnoreTheCache | apps/api/service/platform.py:128-237 | over any sequence of point and window calls every answer is what a fresh service would give |
| ProjectionModel.AnsweredExactly | apps/api/service/platform.py:82-113 | answered iff the purpose is not empty and among the manifest's, authorization, query and manifest name one case, the policy versions agree and the mandatory fields are asked for; each error under its own condition, in the source's order |
| ProjectionModel.ShownIsPermitted | apps/api/service/platform.py:194-212 | every revision shown is of the authorization's case, under one of its labels, restricted to its fields, and answers the query |
| ProjectionModel.PermittedIsShown | apps/api/service/platform.py:194-212 | nothing that is permitted and answers is withheld |
| ProjectionModel.ProjectionCarries | apps/api/service/platform.py:115-237 | a projection carries case, policy, query, fields and the digests of manifest and authorization it was asked under; its keys are the digests of that context and of what it shows; both lists are in order of revision id |
| ProjectionModel.ProjectionIsExact | apps/api/service/platform.py:194-236 | a projection shows exactly the permitted answers, names exactly their labels, and included plus excluded is the snapshot's size |
| ProjectionModel.ItemsAreViews | apps/api/service/platform.py:207-212 | a projected item has the requested fields alone, with the revision's own values, the mandatory ones always |
| ProjectionService.AnalysisService.Request | apps/api/service/platform.py:128-192 | `project` and `project_window` in place: an answer iff the call may ask, else the first reason to deny it; and the answer is the one without a cache |
| ProjectionService.AnalysisService.BuildProjection | apps/api/service/platform.py:194-237 | the projecting loop equals its specification |
| ProjectionService.Compare | apps/api/service/platform.py:240-297 | added, removed and common ids split the union; changes are exactly the assertions with two different revisions, in order |
| ProjectionService.ChangesAreReplacements | apps/api/service/platform.py:253-297 | over a consistent history changes are exactly the replacements of one shown revision by another, each one removed and one added id |
| PriorityRounding.RoundIsSound | analytics/prioritization/baseline.py:54-55 | rounding keeps to 0 to 100, never reorders, moves by at most half a unit in the sixth place, and is idempotent |
| PriorityRounding.RoundExactly | analytics/prioritization/baseline.py:54-55 | six decimals, the nearest ones; half way between two, the one with the even last digit |
| PriorityRounding.RoundSignedIsSound | analytics/prioritization/baseline.py:58-59 | the signed rounding keeps to its bounds and the sign, and is symmetric |
| PrioritySelection.TextInjective | analytics/prioritization/model.py:57-59 | a dependency id identifies record and version, whatever characters record ids contain |
| PrioritySelection.SelectKnownRevisions | analytics/prioritization/baseline.py:79-103 | the one-pass loop selects exactly the highest visible version of each record and excludes exactly the others, or reports a repeated dependency |
| PrioritySelection.SelectionIsUnique | analytics/prioritization/baseline.py:79-103 | the selection does not depend on the order of the evidence |
| PrioritySelection.SelectionPartitions | analytics/prioritization/baseline.py:79-103 | selected and excluded partition the dependencies, one selected version per visible record |
| PrioritySelection.NoHindsight | analytics/prioritization/baseline.py:90-92 | what was observed or recorded after the instant never changes the selection |
| PriorityAssessment.ContributionInOrder | analytics/prioritization/baseline.py:111-151 | 0, lower, points, upper, 100 are in order for every record, through every clamp and rounding |
| PriorityAssessment.IndexWithinInterval | analytics/prioritization/baseline.py:195-240 | the index of an ordered assessment lies in its interval within 0 to 100; it abstains iff it gives a reason |
| PriorityPoints.PointsAreTheFormula | analytics/prioritization/baseline.py:111-151 | a record's points differ from 100 * (sum of weight * known value - penalty * sum of missing weights), kept within 0 to 100, by at most six roundings of half a unit in the sixth place; the bounds likewise with every known value lowered or raised by the margin within 0 to 1; each factor by one; the penalty by five |
| PriorityPoints.AssessmentAccounted | analytics/prioritization/baseline.py:154-240 | index and bounds are within seven roundings of the mean of the records' formulas, the penalty within six of the mean cost of what is missing; it abstains for want of evidence iff there are fewer records than required, for want of coverage iff there are none or the known factors are too small a part |
| PriorityPoints.FullMarksGiveHundred | analytics/prioritization/baseline.py:111-240 | when every factor of every record is 1 the index is 100, up to eight roundings |
| PriorityPoints.MissingFactorCosts | analytics/prioritization/baseline.py:122-143 | a factor that is not known any more costs its weight times its value and its weight times the penalty |
| PrioritySensitivity.RecordContribution | analytics/prioritization/baseline.py:111-151 | the factor loop computes the contribution, each factor, the points and the bounds close to the formula over the record's fields |
| PrioritySensitivity.AssessCore | analytics/prioritization/baseline.py:184-240 | succeeds iff dependencies are distinct and corroborations available; then reasons, index, bounds and penalty are those of the formula over the highest visible versions, up to the roundings |
| PrioritySensitivity.AssessPriority | analytics/prioritization/baseline.py:251-287 | one sensitivity per selected dependency, each with the index of the formula over the remaining evidence and the change from this one, up to the roundings; the exact condition of failure |
| PrioritySensitivity.CrossCorroborationFails | analytics/prioritization/baseline.py:173-262 | with distinct dependencies, every assessment of the evidence and of the evidence without a selected record finds its corroborations iff selected records corroborate at most themselves and each runner-up only itself or records selected beside it |
| PrioritySensitivity.SelectedWithout | analytics/prioritization/baseline.py:251-262 | without a selected record the others stay selected and its next lower visible version comes in, and nothing else |
| PrioritySensitivity.CrossExampleFails | analytics/prioritization/baseline.py:173-181 | two concrete records of which one corroborates the other: accepted, but not without the other |
| PrioritySensitivity.RevisedExampleFails | analytics/prioritization/baseline.py:251-262 | four concrete records whose selected ones corroborate nothing, and one removal still fails |
| PrioritySensitivity.RaisingNeverLowers | analytics/prioritization/baseline.py:195-240 | raising known factors, or observing later, never lowers the index or its bounds and never withholds an assessment |
| PrioritySensitivity.RemovalMovesTheIndex | analytics/prioritization/baseline.py:251-279 | removing a record of at least mean points, with no other visible version, never raises the index; of at most mean points, never lowers it; the reported change has that sign |
| PriorityRanking.RankAssessments | analytics/prioritization/baseline.py:290-329 | every item once, ordered ones first by falling index and then by item; each ordered item's rank is one plus the number of items with a larger index, with the size of its tie; others are unranked; item ids must be distinct |
| PriorityRanking.RankingIgnoresOrder | analytics/prioritization/baseline.py:290-329 | order and ranks do not depend on the order of the assessments |
| PriorityRanking.RanksCompete | analytics/prioritization/baseline.py:317-328 | equal indexes share a rank, and the next rank skips the tie |

## Left out

- Audit checkpoint requests of the job repository and the checks that instants carry a time zone: straight-line code.
- Sorting of tuples that a set or map determines (job dependencies, staged outputs by name, handling labels): kept as sets and maps.
- Empty entries that a `defaultdict` gains by being read: not represented.
- Checks that snapshot identifiers and labels are unique and communities not empty: errors raised before the modelled pass.
- StorageRace.PutsAreLinearizable: each writer performs one `put`; any number of writers covers any number of calls.
- LineageBuild.BuildLineage: requires the configuration its constructor accepts, and takes observations already in canonical order (LineageLabels says what that order depends on); LineageOutcome adds scores, flags and reasons to its events.
- LineageLabels.LabelsMatterExactly: an observation's own label, which relabelling changes by definition, is not part of what is compared.
- Lineage and observation identifiers as zero-padded strings: kept as numbers, which order the same way up to four digits.
- Binary floating point: scores, weights and indexes are real numbers; rounding to six decimals is modelled exactly.
- Metadata tables with keys other than strings, numbers that are equal and spelled differently, and Python's equality of `True` with `1`: metadata is compared as JSON spells it.
- Real SHA-256 and JSON text, fsync, path resolution, symbolic links and unsafe keys: injective functions and an atomic create-if-absent rename. No stream key is a path prefix of another, and temporary names never collide.
- Retention markers: the same publication as objects, without a harder property.
- StorageFilesystem.FilesystemStorage.PutObject: one caller at a time; racing callers are modelled by StorageRace on values.
- `apps/api/storage/s3_compatible.py`: the same contract over an injected client.
- PostgreSQL connections, row security and joins to other tables: only the predicates over revisions are modelled; row identifiers are assumed to identify case, assertion and revision.
- TemporalSql.ReconstructionsAgree: assumes linear correction chains with strictly later successors and recorded ends at the successor's recorded start; a branching chain would return a row several times.
- Python's recursion limit in `_revision_numbers`: not represented.
- Protected attribute checks, metadata, neutral labels and limitation texts of assessments: no hard property.
- The exponential in `_recency`: a function of age into (0, 1] that does not increase.
- Authentication, HTTP routes, report drafting and the case fixtures: input and output around the modelled core.
