# Verified model of the AI service's deterministic core

This project models the deterministic logic of the service in Dafny and proves what its parts promise
together. Run `dafny verify dfyconfig.toml`.

- **Job store** (`Agents`, `JobStore`, `JobInvariants`, `JobRuns`, `JobOutcomes`, `JobPriority`,
  `JobProtocol`, `JobFairness`, `InMemoryStore`, `Supervisor`). Worker jobs move from queued through leased,
  running and paused to a terminal phase. A store operation is one atomic step (the store holds a lock for its
  whole body); `JobStore.Step` says what each does to the map of jobs, and the classes `InMemoryJobStore` and
  `Supervisor` perform the same steps on their fields. A run is any sequence of operations from the empty
  store; `At(run, i)` is the store before operation `i`. Every run property is for all runs, all lengths,
  all interleavings of tenants and workers. Times are integers. Where a clock assumption is needed it is
  `ClockAdvances`: no operation runs before an earlier one or before the `queued_at` of a job already added.
- **Diagnosis** (`SkillGraph`, `GraphLoading`, `DiagnosisTypes`, `Propagation`, `PropagationLaws`,
  `PropagationValues`, `Misconceptions`, `Diagnosis`, `DiagnosisMeaning`). Kahn's algorithm with a
  least-first heap, the loading of a graph, the walk that enumerates backward paths through a queue, the
  misconception report, and the diagnosis that is built on them. Floating-point numbers are modelled as exact
  reals.
- **Checkpoints of problem generation** (`Checkpoints`). What a checkpoint must look like, which transition
  is accepted, and how a final checkpoint becomes a result. An independent description of the worker as five
  moves is proved to be exactly what the transition check accepts.
- **Counsel read model** (`ReadModel`). Transactions that lock a key, read the row, merge a snapshot into it
  and write it back, interleaved in any order, for any lock hash.
- **Detection** (`Features`, `Ranking`). Weekly features extracted from events and merged with stored weeks;
  findings merged into alerts, trimmed to their evidence, ranked and capped by class.

`Prelude`, `Ordering`, `Selections` and `Sums` hold what the others share: results, code point order,
Python's stable sort, filtering, sums.

Beside the invariants and laws, every operation has a description that does not use its own definition: the
answer to each store operation read off the stored fields (`JobOutcomes`), the lease order by classes and waiting
times (`JobPriority`), a diagnosis as counts over the set of events (`DiagnosisMeaning`), the shares and origins
of propagation (`PropagationValues`), the worker's moves and the validators by status (`Checkpoints`), what a
stored row, a week and a signal tell (`ReadModel`, `Features`, `Ranking`).

Some promises fail as first read; the exact conditions are proved instead, with an input for each.

- `add` does not bound `queued_at`, so a job dated in the future blocks its workers' leases
  (`FutureDatedJobBlocks`); a lease is refused if and only if the head of the queue is dated later than the
  request (`LeaseRefusedExactly`).
- The supervisor recovers and leases at one clock reading but in two store steps; a job queued at a later
  reading between them makes the lease fail (`QueuedBetweenBlocks`, `InterruptedLease`).
- Recovery is refused if and only if a job due its last recovery started later than the recovery
  (`RecoveryRefusedExactly`); only a clock that runs backwards gets there (`NoInternalFailureInRuns`,
  `BackwardClockBlocksRecovery`).
- A heartbeat at the reading that set the current expiry is refused, because a renewal must be strictly
  later (`HeartbeatAccepted`).
- The cycle error lists nodes downstream of a cycle as well as those on one (`LeftOverIsBehindCycle`,
  `LeftOverBesideCycle`), although its message calls them all cyclic.

## Model

| member | source | states |
|---|---|---|
| Agents.TableExactly | src/ai/db/models.py:925-1010 | the validators of a snapshot and the CHECK constraints of the table agree, but for the strings only the former require not to be empty and the generation of an active job |
| Agents.TransitionsExactly | src/ai/contracts/agents.py:245-338 | what the three transition checks let through, phase by phase: the command and the first start stay, only a lease counts generation and attempt, only a recovery counts itself |
| JobStore.QueueInJobs | src/ai/agents/job_store.py:292-365 | the sorted queues of recovery and leasing name stored jobs only |
| JobInvariants.LeaseHead | src/ai/agents/job_store.py:336-365 | the job leased is a waiting one that no other waiting job precedes by effective priority, queueing time and id |
| JobInvariants.RecoveryFails | src/ai/agents/job_store.py:292-316 | recovery fails as a whole exactly when one expired job cannot be recovered |
| JobInvariants.RecoverMoves | src/ai/agents/job_store.py:292-316 | recovery changes each job only as recovery of that job may, adds and loses none |
| JobInvariants.LeaseMoves | src/ai/agents/job_store.py:318-365 | leasing changes each job only as leasing it may, adds and loses none |
| JobInvariants.WriteMoves | src/ai/agents/job_store.py:367-587 | an operation on a named job changes that job only |
| JobInvariants.WritesAllRecovered | src/ai/agents/job_store.py:305-316 | storing the recovered snapshots one by one gives the store with every expired job recovered and no other touched |
| JobInvariants.StepMoves | src/ai/agents/job_store.py:269-587 | every operation keeps jobs filed by id, moves each by its own rule, and files a new one only by add |
| JobInvariants.ApplyKeepsSound | src/ai/agents/job_store.py:367-659 | every operation keeps the stored-job invariant, among it attempts equal to generations and recoveries below the budget while live |
| JobInvariants.ApplyKeepsTimely | src/ai/agents/job_store.py:367-659 | no operation records a queueing, start, acquisition or finish instant later than its own; lease expiries lie ahead by design |
| JobInvariants.NoInternalFailure | src/ai/contracts/agents.py:179-297 | on a sound job dated no later than now no validator and no transition check fires; recovery, leasing and resuming a paused job succeed |
| JobInvariants.LeaseFailsExactly | src/ai/agents/job_store.py:354-365 | leasing a sound waiting job fails exactly when it is dated after the lease |
| JobInvariants.RecoveryFailsExactly | src/ai/agents/job_store.py:595-631 | recovering a sound expired job fails exactly at its last recovery if it started after the recovery |
| JobRuns.ReachableIsSound | src/ai/contracts/agents.py:179-242 | every job of every reachable store is sound |
| JobRuns.ReachableSatisfiesTable | src/ai/db/models.py:925-1010 | every job of every reachable store meets the table's CHECK constraints on hashes, counters, leases, phases and times |
| JobRuns.TenantIsolation | src/ai/agents/job_store.py:661-665 | no operation of one tenant changes a job of another |
| JobRuns.ReachableIsTimely | src/ai/agents/job_store.py:292-659 | with an advancing clock no stored queueing, start, acquisition or finish instant lies in the future |
| JobRuns.NoInternalFailureInRuns | src/ai/agents/job_store.py:292-382 | with an advancing clock no operation of any run fails a validator or transition check, and recovery, leasing and resuming succeed |
| JobRuns.LeaseRefusedExactly | src/ai/agents/job_store.py:318-365 | with no clock assumption, a lease is refused exactly when the head of the queue is dated later, and finds nothing exactly when the queue is empty |
| JobRuns.FutureDatedJobBlocks | src/ai/agents/job_store.py:269-283 | a concrete failing family: a job added with a future date makes its workers' next lease fail |
| JobRuns.RecoveryRefusedExactly | src/ai/agents/job_store.py:595-631 | with no clock assumption, recovery is refused exactly when an expired job due its last recovery started later |
| JobRuns.BackwardClockBlocksRecovery | src/ai/agents/job_store.py:595-631 | such a refusal is reached: under a clock that runs backwards, after five accepted operations, the last recovery of a job is refused |
| JobProtocol.LeaseStaysOver | src/ai/agents/job_store.py:667-686 | a lease that has ended never comes back into force |
| JobProtocol.FencedForever | src/ai/agents/job_store.py:667-686 | once a lease has ended, every owned operation with its generation is refused with the store unchanged, for the rest of the run |
| JobProtocol.GenerationsNeverDecrease | src/ai/agents/job_store.py:354-365 | a job's generation never decreases in a run |
| JobProtocol.GrantsAreFresh | src/ai/agents/job_store.py:354-365 | every grant takes a generation above all the job has had, so two grants carry different, increasing ones, and goes to the requesting owner |
| JobProtocol.TerminalFrozen | src/ai/contracts/agents.py:98-115 | a terminal job never changes again |
| JobProtocol.OneTerminalWrite | src/ai/agents/job_store.py:633-659 | a job gets at most one terminal write in a run |
| JobProtocol.LeasePromise | src/ai/agents/job_store.py:292-365 | a lease shown to last until E, while every operation runs before E, is in force exactly if no accepted pause, success, failure or owned cancellation of its own holder within the job's tenant gave it up; then the job has not been granted again |
| JobProtocol.PromiseHeard | src/ai/agents/supervisor.py:63-87 | the same from what the worker was told, with no clock assumption: before the expiry in the answer, and unless an accepted operation of its own gave the lease up, its next owned operation passes the fence |
| JobProtocol.GenerationsCount | src/ai/agents/job_store.py:354-382 | generation = re-queuing recoveries + resumes, plus one when leased, running, paused, succeeded or failed |
| JobProtocol.RecoveriesBounded | src/ai/contracts/agents.py:257-284 | recoveries stay within the budget, and exactly the one that reaches it ends the job failed with the exhausted code |
| JobProtocol.JobRemembers | src/ai/agents/job_store.py:384-470 | through pauses, recoveries and new leases a job keeps the last reported checkpoint and its first start |
| JobProtocol.TerminalRecord | src/ai/agents/job_store.py:472-659 | a terminal write records the instant, result, error or reason of the one operation that may cause it, by the lease holder where one is needed; an exhausted recovery records its error code and the last recovery |
| JobFairness.AgedIsNotOvertaken | src/ai/agents/job_store.py:173-202 | whatever is leased while a job that waited two aging intervals is queued is that job or one queued before it |
| JobFairness.RequestShortensQueue | src/ai/agents/job_store.py:336-365 | a lease that does not take the aged job takes one of those before it |
| JobFairness.QueueAheadDrains | src/ai/agents/job_store.py:336-365 | aged requests made plus jobs still ahead never exceed the jobs ahead at the start |
| JobFairness.NoStarvation | src/ai/agents/job_store.py:173-202 | with n jobs ahead and none put before it, a job has been leased by n + 1 requests made after it aged, unless it was cancelled, however many arrive later |
| JobPriority.LevelIs | src/ai/agents/job_store.py:165-202 | the computed level is interactive exactly for an interactive job, a standard one after one whole interval and a batch one after two; standard exactly for a standard one or a batch one after one |
| JobPriority.LeasedGoesFirst | src/ai/agents/job_store.py:173-202 | the job answered by a lease is exactly the waiting one that goes before every other waiting one: by class with its aging written out, then queueing time, then id |
| JobPriority.ClassesGoFirst | src/ai/agents/job_store.py:165-202 | fresh jobs go by class, interactive before standard before batch; a job is overtaken by a later one only of a strictly higher class; one whole interval lifts a job to the next class; a lower class goes first only after one interval a class |
| JobOutcomes.UnknownJobAnswers | src/ai/agents/job_store.py:661-665 | an operation answers that the job is not found exactly if it is not stored or belongs to another tenant, and then changes nothing |
| JobOutcomes.ResumeAnswers | src/ai/agents/job_store.py:367-382 | a resume is accepted exactly of a paused job, which is queued with nothing else changed |
| JobOutcomes.MarkRunningAnswers | src/ai/agents/job_store.py:384-412 | a start is accepted exactly of a leased job from its holder before the expiry, with a checkpoint; it stores phase, checkpoint and, the first time, the start |
| JobOutcomes.RenewLeaseAnswers | src/ai/agents/job_store.py:414-438 | a renewal is accepted exactly of a leased or running job from its holder before the expiry, to a later expiry, and stores that alone |
| JobOutcomes.PauseAnswers | src/ai/agents/job_store.py:440-470 | a pause is accepted exactly of a running job from its holder before the expiry, with a checkpoint; the lease is cleared |
| JobOutcomes.SucceedAnswers | src/ai/agents/job_store.py:472-500 | a success is accepted exactly of a running job from its holder before the expiry, with a result; phase, result and finish are stored and the lease is cleared |
| JobOutcomes.FailAnswers | src/ai/agents/job_store.py:502-530 | a failure is accepted exactly of a leased or running job from its holder before the expiry, with an error code; it is stored with the partial result |
| JobOutcomes.CancelWaitingAnswers | src/ai/agents/job_store.py:532-553 | a cancellation from outside is accepted exactly of a queued or paused job |
| JobOutcomes.CancelOwnedAnswers | src/ai/agents/job_store.py:555-587 | a cancellation by the holder is accepted exactly before the expiry, and of a running job only with a safe point, which is kept as checkpoint |
| JobOutcomes.FreshExactly | src/ai/contracts/agents.py:134-242 | a job counts as new exactly if its command is complete and fits its worker and nothing has happened to it |
| JobOutcomes.AddAnswers | src/ai/agents/job_store.py:269-283 | a new job is stored exactly if its id is not; anything else is refused and changes nothing |
| JobOutcomes.LeaseAnswers | src/ai/agents/job_store.py:318-365 | a lease finds nothing exactly if no job of the tenant and worker is queued; else it stores one such job leased to the caller under the next generation and attempt, with nothing else changed |
| JobOutcomes.RecoveryAnswers | src/ai/agents/job_store.py:292-316 | recovery changes exactly the jobs whose lease has lapsed: queued again with the recovery counted, or failed with the exhausted code at the last one; it answers with them in queueing order, each once |
| JobOutcomes.SettledInRuns | src/ai/agents/job_store.py:367-587 | with an advancing clock these answers hold of every operation on a named job in every run |
| JobOutcomes.JobCanSucceed | src/ai/agents/job_store.py:269-500 | every new job can be leased, started and finished by any worker |
| InMemoryStore.InMemoryJobStore.Add | src/ai/agents/job_store.py:269-283 | a job is stored exactly if it is fresh, valid and its id is new; nothing else changes; the counter rises exactly then |
| InMemoryStore.InMemoryJobStore.Get | src/ai/agents/job_store.py:285-290 | a job is found exactly within its tenant |
| InMemoryStore.InMemoryJobStore.RecoveryQueue | src/ai/agents/job_store.py:300-312 | the expired jobs in recovery order |
| InMemoryStore.InMemoryJobStore.LeaseQueue | src/ai/agents/job_store.py:336-353 | the waiting jobs in lease order |
| InMemoryStore.InMemoryJobStore.RecoverExpired | src/ai/agents/job_store.py:292-316 | the loop performs the recovery step, all or nothing |
| InMemoryStore.InMemoryJobStore.LeaseNext | src/ai/agents/job_store.py:318-365 | the method performs the leasing step |
| InMemoryStore.InMemoryJobStore.Perform | src/ai/agents/job_store.py:367-587 | an operation on a named job stores its answer over that job of the caller's tenant and changes nothing else, or is refused and changes nothing; an owned one needs the lease |
| Supervision.Supervisor.LeaseNext | src/ai/agents/supervisor.py:63-87 | recovery, then leasing, at one clock reading, with the fixed durations |
| Supervision.Supervisor.Heartbeat | src/ai/agents/supervisor.py:135-153 | a renewal to now plus the fixed duration, accepted only from the lease holder; refused, it changes nothing |
| Supervision.RejectedChangesNothing | src/ai/agents/job_store.py:269-587 | a refused operation leaves the store unchanged |
| Supervision.AfterRecovery | src/ai/agents/supervisor.py:74-79 | after recovery no lease of these workers is expired, and exactly the available jobs wait |
| Supervision.SupervisedLeaseServes | src/ai/agents/supervisor.py:63-87 | a supervised lease whose two store steps are adjacent never fails, answers nothing exactly when no job is available, and else hands one out for the full duration under the next generation |
| Supervision.SupervisedLeaseInRuns | src/ai/agents/supervisor.py:63-87 | this holds on every store that a run with an advancing clock reaches |
| Supervision.InterruptedLease | src/ai/agents/supervisor.py:74-87 | with any operations of others between the two steps, recovery succeeds, the lease is refused exactly if the head of the queue is dated later by then, and it finds a job as long as one available job is untouched |
| Supervision.QueuedBetweenBlocks | src/ai/agents/supervisor.py:74-87 | such a refusal is reached: a job queued at a later reading between the two steps makes the lease fail |
| Supervision.HeartbeatAccepted | src/ai/agents/job_store.py:414-438 | a heartbeat is accepted exactly from the holder of an unexpired lease that it makes strictly longer, and changes the expiry alone |
| SkillGraph.KahnSplits | src/ai/diagnosis/skill_graph.py:224-235 | what the algorithm orders is in topological order and nothing left over precedes it |
| SkillGraph.LeftOverIsBehindCycle | src/ai/diagnosis/skill_graph.py:232-234 | the nodes left over are exactly those on or downstream of a cycle |
| SkillGraph.LeftOverBesideCycle | src/ai/diagnosis/skill_graph.py:232-234 | a node on no cycle is listed: a self-loop on "a" and an edge from "a" to "b" leave "b" over |
| SkillGraph.OrderExactlyIfAcyclic | src/ai/diagnosis/skill_graph.py:207-235 | an order is returned exactly when the non-related edges are acyclic; it is topological, and otherwise the sorted error list is exact |
| SkillGraph.OrderIsLeast | src/ai/diagnosis/skill_graph.py:222-230 | the order is the lexicographically least topological order |
| GraphLoading.PopLeast | src/ai/diagnosis/skill_graph.py:225 | popping takes a least element and keeps the others |
| GraphLoading.Tables | src/ai/diagnosis/skill_graph.py:212-219 | the loop's tables hold in-degrees and children, parallel edges counted |
| GraphLoading.Release | src/ai/diagnosis/skill_graph.py:227-230 | releasing a node leaves the tables right for the rest and puts exactly the newly ready nodes on the heap, once |
| GraphLoading.Drain | src/ai/diagnosis/skill_graph.py:224-230 | the heap loop computes order and left-over of the specification on node and link sets |
| GraphLoading.TopologicalNodeIds | src/ai/diagnosis/skill_graph.py:207-235 | the table algorithm returns the specified order or error |
| GraphLoading.FirstDangling | src/ai/diagnosis/skill_graph.py:187-197 | the first edge with a missing end is found |
| GraphLoading.Load | src/ai/diagnosis/skill_graph.py:138-168 | the first check that fails decides the answer, in both directions for every error: no expected version, repeated ids, unresolved edges, another version, a cycle; the error names exactly the ids, the first bad edge or the nodes behind a cycle |
| GraphLoading.LoadIgnoresListing | src/ai/diagnosis/skill_graph.py:207-251 | permuting node and edge lists changes neither whether a graph loads, nor its canonical form, nor its order |
| GraphLoading.CanonicalExactly | src/ai/diagnosis/skill_graph.py:238-251 | the canonical form holds the same nodes and edges under the same versions, nodes by id, edges by origin, target, name of the kind and weight |
| Propagation.PathsAreExact | src/ai/diagnosis/diagnoser.py:440-457 | the enumeration holds exactly the backward paths of usable edges |
| Propagation.PathsAreDistinct | src/ai/diagnosis/diagnoser.py:440-457 | every path is enumerated once, parallel edges giving different paths |
| Propagation.Expand | src/ai/diagnosis/diagnoser.py:443-457 | one round of the inner loop moves what is pending for a path into the scores, origins and queue, losing nothing |
| Propagation.WalkFrom | src/ai/diagnosis/diagnoser.py:440-457 | the queue loop ends and adds to every score exactly what was pending for the source |
| Propagation.PendingIsPathSum | src/ai/diagnosis/diagnoser.py:447-455 | what is pending is the sum over all paths of strength, weights and decay |
| Propagation.ReachesByPath | src/ai/diagnosis/diagnoser.py:456 | a source is an origin of a node exactly if some path leads there |
| Propagation.ReachedIsNode | src/ai/diagnosis/diagnoser.py:443-457 | a walk reaches nodes of the graph only |
| Propagation.WalkAll | src/ai/diagnosis/diagnoser.py:430-457 | over all sources the scores are the total path sums and the origins are exact |
| Propagation.Propagate | src/ai/diagnosis/diagnoser.py:424-466 | the result holds exactly the reached nodes whose path sum meets the threshold, with that sum and the sorted origins |
| PropagationLaws.BlockedMightAsWellBeDeleted | src/ai/diagnosis/diagnoser.py:443-457 | deleting every blocked node and its edges changes no score and no origin |
| PropagationLaws.BlockedNeverReached | src/ai/diagnosis/diagnoser.py:445-446 | no walk reaches a blocked node |
| PropagationLaws.ScoredExactlyIfReached | src/ai/diagnosis/diagnoser.py:424-466 | scores are never negative and positive exactly for the nodes with an origin |
| PropagationValues.PowerLaws | src/ai/diagnosis/diagnoser.py:453 | the decay of a path is one factor for each of its edges |
| PropagationValues.PathWeightLaws | src/ai/diagnosis/diagnoser.py:448 | the weight of a path is the product of the weights of its edges |
| PropagationValues.ShareOfSource | src/ai/diagnosis/diagnoser.py:434-454 | a confirmed source contributes its severity times the sum over its paths of weight and decay, a suspected one that times the damping, any other node nothing |
| PropagationValues.SuspicionIsDamped | src/ai/diagnosis/diagnoser.py:439 | suspecting a source instead of confirming it multiplies its share by the damping |
| PropagationValues.TotalIsOverSources | src/ai/diagnosis/diagnoser.py:430-436 | a score is the sum of the shares of the suspected and confirmed nodes of the graph, each once |
| PropagationValues.OneEdgeScore | src/ai/diagnosis/diagnoser.py:439-454 | across a single edge the score is severity, damping of a suspect, weight and decay, each once |
| PropagationValues.OriginsAreDependents | src/ai/diagnosis/skill_graph.py:116-125 | a source is an origin of a node exactly if a chain of requires and builds-on edges leads from the node to it on which every node before the source is open |
| Diagnosis.Deduplicate | src/ai/diagnosis/diagnoser.py:180-191 | each event once in id order, or a conflict exactly when two events that differ in any field share an id |
| Diagnosis.GroupByCell | src/ai/diagnosis/diagnoser.py:296-305 | the dictionary holds each cell's events in order |
| Diagnosis.BuildCells | src/ai/diagnosis/diagnoser.py:308-341 | each cell is judged from its own events |
| Diagnosis.CellsPartition | src/ai/diagnosis/diagnoser.py:296-341 | events and correct answers split over the cells without loss |
| Diagnosis.OverallIsWeightedMean | src/ai/diagnosis/diagnoser.py:121-122 | the overall accuracy is the mean of the cell accuracies weighted by size |
| Diagnosis.SeverityOfWeak | src/ai/diagnosis/diagnoser.py:348-350 | a target below the cut is below the overall accuracy and has severity in (0, 1] |
| Diagnosis.CellsWellFormed | src/ai/contracts/diagnosis.py:185-201 | accuracies lie in [0, 1], weak cells lie below the overall accuracy with severity in (0, 1], others have none |
| Diagnosis.BuildIndirectNodeStates | src/ai/diagnosis/diagnoser.py:353-379 | a node is suspect exactly if it belongs to a weak cell, with the strongest severity and the weak cells as sorted basis |
| Diagnosis.GroupDirectEvents | src/ai/diagnosis/diagnoser.py:382-392 | the dictionary holds each tagged node's events in order |
| Diagnosis.MergeDirectNodeStates | src/ai/diagnosis/diagnoser.py:395-421 | enough direct events override what follows from cells, and exactly the directly good nodes are returned |
| Diagnosis.SeveritiesPositive | src/ai/diagnosis/diagnoser.py:395-421 | every suspected or confirmed node has severity in (0, 1] and a basis |
| Diagnosis.StatesGrounded | src/ai/diagnosis/diagnoser.py:353-421 | every judged node is a node of the graph and its basis refers to weak cells or to events |
| Diagnosis.OverallLowNeedsUnknown | src/ai/diagnosis/diagnoser.py:123-151 | all judgeable cells can be weak only if some cell is unknown |
| Diagnosis.Diagnose | src/ai/diagnosis/diagnoser.py:97-250 | the answer for the set of events: the first failing check of versions, conflicts, unknown nodes, areas and misconception tags, else the diagnosis with versions, snapshot and misconception report |
| Diagnosis.DiagnosisUnique | src/ai/diagnosis/diagnoser.py:97-157 | the specification determines the diagnosis |
| Diagnosis.OnlyTheEventSetMatters | src/ai/diagnosis/diagnoser.py:112-157 | permuting or repeating events changes nothing, and two different events with one id are rejected in every order |
| Diagnosis.DirectOkIsNoSource | src/ai/diagnosis/diagnoser.py:414-436 | a directly good node is never a source, so blocking it deletes no source |
| Diagnosis.CheckReferences | src/ai/diagnosis/diagnoser.py:194-250 | the first failing check of the confirmed events, with exactly the offending ids in order |
| Misconceptions.BuildReport | src/ai/diagnosis/diagnoser.py:257-293 | the report counts each area and tag, and each node and tag, exactly, without empty rows, and the two exclusions |
| Misconceptions.ReportUnique | src/ai/diagnosis/diagnoser.py:257-293 | the report is determined by the events, whatever their order |
| Misconceptions.WrongAnswersAccounted | src/ai/diagnosis/diagnoser.py:264-272 | every wrong answer is excluded for one reason or reported, once |
| Misconceptions.AreasPartition | src/ai/diagnosis/diagnoser.py:273-276 | the entries by area sum to the reported answers |
| Diagnosis.DiagnosisWellFormed | src/ai/contracts/diagnosis.py:185-249 | a generated diagnosis meets its contracts: keys and origins are nodes of the graph, bases refer to weak cells or to events, propagated nodes have positive score and judged origins and are never directly good |
| DiagnosisMeaning.BelowExactly | src/ai/diagnosis/diagnoser.py:327-328 | a target is weak exactly if it lies below the overall accuracy by the cut in percentage points |
| DiagnosisMeaning.SeverityIsLinear | src/ai/diagnosis/diagnoser.py:348-350 | severity grows linearly with the gap from 0 to 1 at the saturation and stays there |
| DiagnosisMeaning.InsufficientExactly | src/ai/diagnosis/diagnoser.py:118-127 | no diagnosis is generated exactly if no area and type has enough distinct confirmed events |
| DiagnosisMeaning.CellsExactly | src/ai/diagnosis/diagnoser.py:308-341 | there is a cell for each area and type with confirmed events; it holds their number, their part of right answers, and the verdict and severity against that of all confirmed events |
| DiagnosisMeaning.SizesSum | src/ai/diagnosis/diagnoser.py:296-341 | the cell sizes sum to the number of distinct confirmed events |
| DiagnosisMeaning.NodesExactly | src/ai/diagnosis/diagnoser.py:353-421 | a node with enough confirmed events of its own is judged by them, with all of them as basis in id order; any other is suspected exactly if it belongs to a weak cell, with the strongest severity and all weak cells as basis in name order |
| DiagnosisMeaning.RestExactly | src/ai/diagnosis/diagnoser.py:424-466 | the overall verdict and the propagated nodes follow from the cells and nodes of the same diagnosis, the nodes called fine blocking |
| DiagnosisMeaning.UnconfirmedNeverCount | src/ai/diagnosis/diagnoser.py:113 | adding or removing unconfirmed events of a set without conflicts changes nothing in the answer |
| DiagnosisMeaning.ErrorsExactly | src/ai/diagnosis/diagnoser.py:160-250 | which error is answered and when none is, over the fields of the call and of the events, with exactly the offending ids in order |
| Checkpoints.StartsExactly | src/ai/contracts/problem_generation.py:672-726 | a request can be started exactly if it has a reference, a well-formed hash and asks for 1 to 20 problems |
| Checkpoints.SlotsAddUp | src/ai/contracts/problem_generation.py:733-747 | every requested slot is done, in hand or not begun |
| Checkpoints.AcceptsExactlyMoves | src/ai/contracts/problem_generation.py:790-904 | between valid checkpoints exactly staying put and the worker's five moves are accepted |
| Checkpoints.StepUsesRemaining | src/ai/contracts/problem_generation.py:790-904 | every accepted step that changes anything lowers a natural measure |
| Checkpoints.RunsAreShort | src/ai/contracts/problem_generation.py:790-904 | a run has at most 5n + 2 real steps |
| Checkpoints.BoundIsReached | src/ai/contracts/problem_generation.py:790-904 | for every request some run takes exactly 5n + 2 real steps |
| Checkpoints.RunAccounts | src/ai/contracts/problem_generation.py:848-904 | completed items are only appended, and calls lie between the attempts items claim and the budget of the slots begun |
| Checkpoints.CallsAreBounded | src/ai/contracts/problem_generation.py:524 | a run makes at most three calls a requested problem |
| Checkpoints.AttemptsWereMade | src/ai/contracts/problem_generation.py:895-904 | from a fresh start the items claim no more attempts than calls were made, and at least one each |
| Checkpoints.TerminalIsFinal | src/ai/contracts/problem_generation.py:802-803 | a terminal checkpoint never changes |
| Checkpoints.ValidExactlyIfReachable | src/ai/contracts/problem_generation.py:672-726 | the validator admits exactly the checkpoints some run reaches from a fresh valid request |
| Checkpoints.CanAlwaysFinish | src/ai/contracts/problem_generation.py:790-904 | from every valid checkpoint some run ends: no dead ends |
| Checkpoints.OneReasonPerDrop | src/ai/contracts/problem_generation.py:766-770 | the reasons are those of the dropped items, one each, in item order |
| Checkpoints.ConvertsExactlyIfTerminal | src/ai/contracts/problem_generation.py:619-783 | conversion passes every result check exactly for terminal checkpoints with no empty summary; counts add up, the status tells what happened, target and personalization are those of the request, and each dropped item gives its reason in item order |
| Checkpoints.ItemsByStatus | src/ai/contracts/problem_generation.py:550-587 | which items are valid, by their status |
| Checkpoints.ResultsByStatus | src/ai/contracts/problem_generation.py:601-669 | which set results are valid, by their status: progress, completeness, successes and stop reason |
| ReadModel.SaveSucceedsExactly | src/ai/db/counsel_draft_view.py:49-90 | on a good table a save succeeds exactly if it is sound in itself; the other axis is kept, the derived columns are the projection, the row is never empty on both axes, keys stay unique |
| ReadModel.SaveLeavesOthers | src/ai/db/counsel_read_model.py:197-225 | a save changes nothing stored under another key |
| ReadModel.RowsTell | src/ai/db/counsel_draft_view.py:75-90 | a stored row with a view has the status and execution of that view, which is of its own job and in a named phase; one without has succeeded and names no execution |
| ReadModel.RefusedForOwnFault | src/ai/db/counsel_draft_view.py:66-83 | a save is refused for the first fault of its own, never for what is stored, and is accepted if it has none |
| ReadModel.SerialKeepsLast | src/ai/db/counsel_read_model.py:154-225 | after any serial saves each axis of each key, and the write time, are those of the last committed save |
| ReadModel.LockNamesDiffer | src/ai/db/counsel_read_model.py:141-192 | different keys have different lock names unless a tenant holds the separator, and all begin with the name of the table |
| ReadModel.OneWorkerPerKey | src/ai/db/counsel_read_model.py:119-143 | two transactions past their lock never work on one key, whatever the hash |
| ReadModel.CommitIsSave | src/ai/db/counsel_read_model.py:197-225 | a commit writes exactly what the save alone would have written and hits no unique key |
| ReadModel.AlwaysConsistent | src/ai/db/counsel_read_model.py:175-225 | every interleaving keeps the protocol invariant |
| ReadModel.InterleavedIsSerial | src/ai/db/counsel_read_model.py:175-225 | the committed table of any interleaving is that of the committed saves run one by one in commit order: no lost update, no conflict, refusals only of unsound saves |
| ReadModel.NoDeadlock | src/ai/db/counsel_read_model.py:186-203 | the open transactions of a consistent database can all run to their end without an abort |
| ReadModel.CounselDraftViewStore.LoadSnapshots | src/ai/db/counsel_read_model.py:154-167 | loading returns the two snapshots of the one row with the key, or nothing if there is none |
| ReadModel.CounselDraftViewStore.SaveSnapshots | src/ai/db/counsel_read_model.py:175-225 | the steps of a save on the stored rows are the save of the specification, and a good table stays good |
| Features.WeekPermutes | src/ai/detection/features.py:106-148 | the order of a week's events does not matter |
| Features.CountCells | src/ai/detection/features.py:123-130 | the dictionary holds for each tag pair its solves and its wrong answers |
| Features.WeekFeatures | src/ai/detection/features.py:106-148 | the loops compute the counts, means and sorted cells of the week |
| Features.MondayIs | src/ai/detection/features.py:102-103 | the bucket of a day is the one Monday that it follows by less than a week |
| Features.WeekTells | src/ai/detection/features.py:106-148 | solves, right answers over graded ones, seconds per word over clocked solves, tagged solves over all, whether anything was submitted |
| Features.CellsTell | src/ai/detection/features.py:120-134 | one cell for each pair of tags of some solve, in the order of the tags, with its solves and wrong answers |
| Features.GroupByWeek | src/ai/detection/features.py:157-162 | events grouped by student and Monday in order |
| Features.ExtractFeatures | src/ai/detection/features.py:151-177 | exactly the students of the request get features: the last entry of each and the sorted weeks of its events |
| Features.WeeksTell | src/ai/detection/features.py:151-177 | one week for every Monday in whose seven days the student has an event, from past to recent, made of exactly these events |
| Features.MergeIsRightBiased | src/ai/detection/features.py:223-234 | the merge is strictly sorted and holds the current weeks and the stored ones they do not replace |
| Features.MergeLaws | src/ai/detection/features.py:223-234 | merging is associative, and on timelines idempotent with the empty one neutral |
| Features.MergeWeeks | src/ai/detection/features.py:223-234 | the dictionary loops and the sort compute the merge |
| Features.IncrementalEqualsBulk | src/ai/detection/features.py:102-234 | batches without a common week, extracted apart and merged, give the weeks of the whole |
| Features.ManyBatches | src/ai/detection/features.py:102-234 | the same for any number of batches merged in turn |
| Features.StoredIncrementEqualsBulk | src/ai/detection/features.py:201-234 | with a stored past the same holds of everything that is stored |
| Features.StoringForgets | src/ai/detection/features.py:201-220 | storing a week forgets the cells, sample sizes and expected accuracy, and nothing else |
| Ranking.MergeStudent | src/ai/detection/ranking.py:56-93 | one alert for the risk findings, one for each care finding |
| Ranking.BestIsSortedFirst | src/ai/detection/ranking.py:72-79 | the primary is the finding the stable falling sort puts first |
| Ranking.MergeConserves | src/ai/detection/ranking.py:56-93 | the alerts are well formed and hold exactly the student's findings |
| Ranking.TrimKeepsSound | src/ai/detection/engine.py:359-411 | trimming drops the alert exactly if no finding has evidence and else leaves a well-formed alert over exactly those that have |
| Ranking.TrimAlert | src/ai/detection/engine.py:373-411 | the trimming loop computes this and counts every dropped finding |
| Ranking.RankClass | src/ai/detection/ranking.py:96-121 | passed alerts by rank, then care by student, numbered 1 to n; the rest is counted |
| Ranking.ClassConserves | src/ai/detection/engine.py:264-308 | the signals and the cut alerts of a class are together exactly its survivors |
| Ranking.CutAreLowest | src/ai/detection/ranking.py:101-110 | an alert is cut only if it competes, all slots are then taken, and every shown competitor ranks at least as high by (score, student) |
| Ranking.FreeAlwaysShown | src/ai/detection/engine.py:274-308 | care, advisory and ongoing alerts are always shown |
| Ranking.SurvivorsAreCounted | src/ai/detection/engine.py:234-308 | over all classes survivors = signals + capped out |
| Ranking.FindingsAccounted | src/ai/detection/engine.py:236-262 | rule by rule, the findings of the alerts that are not suppressed are those cited by a survivor and those counted as skipped |
| Ranking.SurvivorsExactly | src/ai/detection/engine.py:236-262 | the survivors are the alerts neither suppressed nor without any evidence, in order, over exactly their findings with evidence, with the lifecycle resolved for the primary before trimming |
| Ranking.SignalsTell | src/ai/detection/engine.py:262-308 | a signal carries the lifecycle filed last for its student and rule; where no two survivors share these it is the one the resolver gave to its own alert's untrimmed primary |
| Ranking.SignalsInOrder | src/ai/detection/engine.py:264-308 | first the competitors below the cap by falling score and student, then care, advisory and ongoing alerts by student |
| Ranking.SignalsOfClass | src/ai/detection/engine.py:264-308 | the two loops give the shown alerts ranks 1 to n without a gap and their filed lifecycle |
| Ranking.RankWithLifecycle | src/ai/detection/engine.py:209-308 | the loop over classes in name order gives the specified signals, cut count and skipped findings |
| Ranking.CountExclusions | src/ai/detection/engine.py:124-139 | missing consent, then a pause, then less than two weeks; the counters are exclusive and, with the judged students, complete |

## Left out

- HTTP layer, envelopes, settings, logging: plumbing without logic of its own.
- The PostgreSQL job store, SQLAlchemy sessions and the checkpointer: foreign calls; only the CHECK constraints of the job table are used, as a specification.
- Language model gateway, prompts, briefing and tone text: dependent on remote behaviour.
- Floating-point rounding: accuracies, severities, scores and times per word are exact reals.
- Scheduling inside a store method: each method body of the in-memory job store is one atomic step.
- Naive datetimes: all instants are aware, so the checks that refuse naive ones are not modelled.
- InMemoryStore.InMemoryJobStore.Add: does not model growth logging, and `clear` (used by tests only) is absent.
- InMemoryStore.InMemoryJobStore.Perform: stands for eight methods of the store that differ in the step they take only.
- Supervision.Supervisor: models `lease_next` and `heartbeat`; the other commands pass their arguments and the clock reading to the store.
- Supervision.SupervisedLeaseServes: takes the two store steps as adjacent; what holds when others come between is stated by `InterruptedLease`.
- GraphLoading.PopLeast: models the binary heap as a list from which a least element is taken; its array layout is not modelled.
- GraphLoading.Load: starts from a parsed graph; YAML reading and the field constraints of nodes and edges are not modelled.
- Propagation.Expand: fuses the selection of a node's incoming edges with the loop over them.
- Diagnosis.Diagnose: the fields of an event that only tell events apart are one opaque string, and an error lists the offending event ids without the areas and tags of its message.
- Diagnosis.OnlyTheEventSetMatters: lets the conflict error name another of several conflicting ids, because the code reports the first it meets.
- Checkpoints.Rejects: drafts, work excerpts and difficulty bands are opaque strings, since only their equality and presence matter; the fixed schema version is not a field.
- ReadModel.Merge: a snapshot is either of its schema, with the fields the projection reads and an opaque rest, or some other JSON.
- ReadModel.InterleavedIsSerial: the row lock taken beside the key lock and the distinction of SQL and JSON null are not modelled; a row's position stands for its primary key.
- Features.WeekFeatures: the expected accuracy is always absent at extraction, and the later step that fills it is not modelled.
- Ranking.RankWithLifecycle: the lifecycle resolver and the evidence resolver are parameters; the text and evidence items of a signal are not built.
- Detection thresholds, rules R1 to R6 and baselines: one-branch facts.
- Report block revisions and single-model validators of other contracts: easy members.
- Evaluation runners and scripts: not part of the service.
