/** The in-memory job store: every operation as one atomic step, and the class that performs it in place. */
module JobStore {
  import opened Prelude
  import opened Ordering
  import opened Agents

  type Jobs = map<string, WorkerJob>

  /** The operations of the store, each with the instant at which it runs. */
  datatype Command =
    | Add(job: WorkerJob)
    | RecoverExpired(tenant: string, kind: WorkerKind, at: Time)
    | LeaseNext(tenant: string, kind: WorkerKind, owner: string, at: Time, expiresAt: Time, agingInterval: int)
    | Resume(tenant: string, jobId: string, at: Time)
    | MarkRunning(tenant: string, jobId: string, owner: string, generation: int, checkpoint: string, at: Time)
    | RenewLease(tenant: string, jobId: string, owner: string, generation: int, at: Time, expiresAt: Time)
    | Pause(tenant: string, jobId: string, owner: string, generation: int, checkpoint: string, at: Time)
    | Succeed(tenant: string, jobId: string, owner: string, generation: int, result: string, at: Time)
    | Fail(tenant: string, jobId: string, owner: string, generation: int,
           error: string, partial: Option<string>, at: Time)
    | CancelWaiting(tenant: string, jobId: string, reason: Option<string>, at: Time)
    | CancelOwned(tenant: string, jobId: string, owner: string, generation: int,
                  safePoint: Option<string>, reason: Option<string>, at: Time)

  datatype Reply = One(job: WorkerJob) | Many(jobs: seq<WorkerJob>) | Nothing | Rejected(error: JobError)

  /** The commands that carry a fencing token (owner and lease generation). */
  predicate Fenced(cmd: Command) {
    cmd.MarkRunning? || cmd.RenewLease? || cmd.Pause? || cmd.Succeed? || cmd.Fail? || cmd.CancelOwned?
  }

  // What one operation makes of one job.

  function Checked(job: WorkerJob): Result<WorkerJob, JobError> {
    if ValidJob(job) then Ok(job) else Err(ValidationError)
  }

  function Transitioned(previous: WorkerJob, current: WorkerJob): Result<WorkerJob, JobError> {
    if !ValidJob(current) then Err(ValidationError)
    else if !JobTransition(previous, current) then Err(InvalidTransition)
    else Ok(current)
  }

  function Unleased(job: WorkerJob): WorkerJob {
    job.(leaseOwner := None, leaseAcquiredAt := None, leaseExpiresAt := None)
  }

  function Finish(previous: WorkerJob, phase: JobPhase, result: Option<string>, error: Option<string>, at: Time)
    : Result<WorkerJob, JobError>
  {
    if TerminalPhase(previous.phase) then Err(InvalidPhase)
    else Transitioned(previous, Unleased(previous).(phase := phase, resultRef := result, errorCode := error,
                                                    finishedAt := Some(at)))
  }

  function RecoverOne(previous: WorkerJob, at: Time): Result<WorkerJob, JobError> {
    var count := previous.recoveryCount + 1;
    var recovered :=
      if count >= previous.maxRecoveryAttempts then
        Unleased(previous).(phase := Failed, recoveryCount := count,
                            errorCode := Some(WORKER_RECOVERY_EXHAUSTED), finishedAt := Some(at))
      else
        Unleased(previous).(phase := Queued, recoveryCount := count);
    if !ValidJob(recovered) then Err(ValidationError)
    else if !ExpiredRecovery(previous, recovered, at) then Err(InvalidTransition)
    else Ok(recovered)
  }

  predicate OwnsLease(job: WorkerJob, owner: string, generation: int, at: Time) {
    && ActivePhase(job.phase)
    && job.leaseOwner == Some(owner) && job.leaseGeneration == generation
    && job.leaseExpiresAt.Some? && at < job.leaseExpiresAt.value
  }

  /** The phase an owned operation insists on; None means any active phase. */
  function ExpectedPhase(cmd: Command): Option<JobPhase> {
    if cmd.MarkRunning? then Some(Leased)
    else if cmd.Pause? || cmd.Succeed? then Some(Running)
    else None
  }

  predicate PassesFence(cmd: Command, job: WorkerJob)
    requires Fenced(cmd)
  {
    && (ExpectedPhase(cmd).Some? ==> job.phase == ExpectedPhase(cmd).value)
    && OwnsLease(job, cmd.owner, cmd.generation, cmd.at)
  }

  /** The snapshot an operation writes over `previous`, once `previous` has been selected by the store. */
  function Apply(cmd: Command, previous: WorkerJob): Result<WorkerJob, JobError>
    requires !cmd.Add?
  {
    if Fenced(cmd) && !PassesFence(cmd, previous) then Err(StaleLease) else
      match cmd
      case RecoverExpired(_, _, at) => RecoverOne(previous, at)
      case LeaseNext(_, _, owner, at, expiresAt, _) =>
        Transitioned(previous, previous.(
                     phase := Leased,
                     dispatchAttempt := previous.dispatchAttempt + 1,
                     leaseGeneration := previous.leaseGeneration + 1,
                     leaseOwner := Some(owner),
                     leaseAcquiredAt := Some(at),
                     leaseExpiresAt := Some(expiresAt)))
      case Resume(_, _, _) =>
        var queued := previous.(phase := Queued);
        if !previous.phase.Paused? then Err(InvalidPhase)
        else if !ValidJob(queued) then Err(ValidationError)
        else if !PausedResume(previous, queued) then Err(InvalidTransition)
        else Ok(queued)
      case MarkRunning(_, _, _, _, checkpoint, at) =>
        Transitioned(previous, previous.(
                     phase := Running,
                     checkpointRef := Some(checkpoint),
                     startedAt := if previous.startedAt.Some? then previous.startedAt else Some(at)))
      case RenewLease(_, _, _, _, _, expiresAt) =>
        if expiresAt <= previous.leaseExpiresAt.value then Err(ValueError)
        else Checked(previous.(leaseExpiresAt := Some(expiresAt)))
      case Pause(_, _, _, _, checkpoint, _) =>
        Transitioned(previous, Unleased(previous).(phase := Paused, checkpointRef := Some(checkpoint)))
      case Succeed(_, _, _, _, result, at) => Finish(previous, Succeeded, Some(result), None, at)
      case Fail(_, _, _, _, error, partial, at) => Finish(previous, Failed, partial, Some(error), at)
      case CancelWaiting(_, _, reason, at) =>
        if !previous.phase.Queued? && !previous.phase.Paused? then Err(InvalidPhase)
        else Finish(previous, Cancelled, None, reason, at)
      case CancelOwned(_, _, _, _, safePoint, reason, at) =>
        if previous.phase.Running? && (safePoint.None? || safePoint.value == "") then Err(ValueError)
        else if safePoint.None? then Finish(previous, Cancelled, None, reason, at)
        else if !ValidJob(previous.(checkpointRef := safePoint)) then Err(ValidationError)
        else Finish(previous.(checkpointRef := safePoint), Cancelled, None, reason, at)
  }

  // Selection: which jobs an operation works on.

  function PriorityLevel(priority: PriorityClass): int {
    match priority
    case Batch => 0
    case Standard => 1
    case Interactive => 2
  }

  const MAX_PRIORITY_LEVEL := 2

  /** One level per whole aging interval waited, capped at the interactive level. */
  function EffectiveLevel(job: WorkerJob, at: Time, agingInterval: int): int
    requires agingInterval > 0
  {
    var waited := if at - job.queuedAt > 0 then at - job.queuedAt else 0;
    var aged := PriorityLevel(job.priorityClass) + waited / agingInterval;
    if aged < MAX_PRIORITY_LEVEL then aged else MAX_PRIORITY_LEVEL
  }

  /** A sort key: rank first, then the time of queueing, then the identifier. */
  datatype Key = Key(rank: int, queuedAt: Time, id: string)

  predicate KeyLeq(a: Key, b: Key) {
    a.rank < b.rank || (a.rank == b.rank && (a.queuedAt < b.queuedAt
                                             || (a.queuedAt == b.queuedAt && StrLeq(a.id, b.id))))
  }

  lemma KeyOrder()
    ensures TotalPreorder(KeyLeq) && Antisymmetric(KeyLeq)
  {
    StrOrder();
  }

  predicate Expired(job: WorkerJob, tenant: string, kind: WorkerKind, at: Time) {
    && job.tenantId == tenant && job.workerKind == kind && ActivePhase(job.phase)
    && job.leaseExpiresAt.Some? && job.leaseExpiresAt.value <= at
  }

  predicate Waiting(job: WorkerJob, tenant: string, kind: WorkerKind) {
    job.tenantId == tenant && job.workerKind == kind && job.phase.Queued?
  }

  function RecoveryKey(job: WorkerJob): Key {
    Key(0, job.queuedAt, job.jobId)
  }

  function LeaseKey(job: WorkerJob, at: Time, agingInterval: int): Key
    requires agingInterval > 0
  {
    Key(-EffectiveLevel(job, at, agingInterval), job.queuedAt, job.jobId)
  }

  function RecoveryKeys(jobs: Jobs, tenant: string, kind: WorkerKind, at: Time): set<Key> {
    set id | id in jobs && Expired(jobs[id], tenant, kind, at) :: RecoveryKey(jobs[id])
  }

  function LeaseKeys(jobs: Jobs, tenant: string, kind: WorkerKind, at: Time, agingInterval: int): set<Key>
    requires agingInterval > 0
  {
    set id | id in jobs && Waiting(jobs[id], tenant, kind) :: LeaseKey(jobs[id], at, agingInterval)
  }

  /** Jobs are filed under their own identifier. */
  ghost predicate WellKeyed(jobs: Jobs) {
    forall id :: id in jobs ==> jobs[id].jobId == id
  }

  // One atomic step of the store.

  /** The first failure when the queue is recovered in order, if there is one. */
  function FirstFailure(jobs: Jobs, queue: seq<Key>, at: Time): Option<JobError>
    requires forall key :: key in queue ==> key.id in jobs
  {
    if queue == [] then None
    else if RecoverOne(jobs[queue[0].id], at).Err? then Some(RecoverOne(jobs[queue[0].id], at).error)
    else FirstFailure(jobs, queue[1..], at)
  }

  function Recovered(job: WorkerJob, at: Time): WorkerJob {
    if RecoverOne(job, at).Ok? then RecoverOne(job, at).value else job
  }

  ghost function StepAdd(jobs: Jobs, job: WorkerJob): (Jobs, Reply) {
    if !ValidJob(job) then (jobs, Rejected(ValidationError))
    else if !job.phase.Queued? || job.dispatchAttempt != 0 || job.leaseGeneration != 0 || job.recoveryCount != 0 then
      (jobs, Rejected(ValueError))
    else if job.jobId in jobs then (jobs, Rejected(AlreadyExists))
    else (jobs[job.jobId := job], One(job))
  }

  function Recoveries(jobs: Jobs, queue: seq<Key>, at: Time): seq<WorkerJob>
    requires forall key :: key in queue ==> key.id in jobs
  {
    seq(|queue|, i requires 0 <= i < |queue| => assert queue[i] in queue; Recovered(jobs[queue[i].id], at))
  }

  /** The store in which every expired job of these workers has been recovered. */
  function AllRecovered(jobs: Jobs, tenant: string, kind: WorkerKind, at: Time): Jobs {
    map id | id in jobs :: if Expired(jobs[id], tenant, kind, at) then Recovered(jobs[id], at) else jobs[id]
  }

  ghost function StepRecover(jobs: Jobs, tenant: string, kind: WorkerKind, at: Time): (Jobs, Reply)
    requires WellKeyed(jobs)
  {
    var keys := RecoveryKeys(jobs, tenant, kind, at);
    var queue := Arrange(KeyLeq, keys);
    QueueInJobs(jobs, queue, keys);
    var failure := FirstFailure(jobs, queue, at);
    if failure.Some? then (jobs, Rejected(failure.value))
    else (AllRecovered(jobs, tenant, kind, at), Many(Recoveries(jobs, queue, at)))
  }

  lemma QueueInJobs(jobs: Jobs, queue: seq<Key>, keys: set<Key>)
    requires queue == Arrange(KeyLeq, keys)
    requires forall key :: key in keys ==> key.id in jobs
    ensures forall key :: key in queue <==> key in keys
    ensures forall key :: key in queue ==> key.id in jobs
  {
    KeyOrder();
    ArrangeSorts(KeyLeq, keys);
  }

  ghost function StepLease(jobs: Jobs, cmd: Command): (Jobs, Reply)
    requires WellKeyed(jobs) && cmd.LeaseNext?
  {
    if cmd.owner == "" || cmd.expiresAt <= cmd.at || cmd.agingInterval <= 0 then (jobs, Rejected(ValueError)) else
      var keys := LeaseKeys(jobs, cmd.tenant, cmd.kind, cmd.at, cmd.agingInterval);
      var queue := Arrange(KeyLeq, keys);
      QueueInJobs(jobs, queue, keys);
      if queue == [] then (jobs, Nothing) else
        assert queue[0] in queue;
        Write(jobs, Apply(cmd, jobs[queue[0].id]))
  }

  function Write(jobs: Jobs, outcome: Result<WorkerJob, JobError>): (Jobs, Reply) {
    match outcome
    case Ok(job) => (jobs[job.jobId := job], One(job))
    case Err(error) => (jobs, Rejected(error))
  }

  predicate Targeted(cmd: Command) {
    !cmd.Add? && !cmd.RecoverExpired? && !cmd.LeaseNext?
  }

  function StepTargeted(jobs: Jobs, cmd: Command): (Jobs, Reply)
    requires Targeted(cmd)
  {
    if cmd.jobId !in jobs || jobs[cmd.jobId].tenantId != cmd.tenant then (jobs, Rejected(NotFound))
    else Write(jobs, Apply(cmd, jobs[cmd.jobId]))
  }

  /** The store after one operation, and what the operation answers. */
  ghost function Step(jobs: Jobs, cmd: Command): (Jobs, Reply)
    requires WellKeyed(jobs)
  {
    match cmd
    case Add(job) => StepAdd(jobs, job)
    case RecoverExpired(tenant, kind, at) => StepRecover(jobs, tenant, kind, at)
    case LeaseNext(_, _, _, _, _, _) => StepLease(jobs, cmd)
    case _ => StepTargeted(jobs, cmd)
  }
}
