/** The job contract between supervisor and workers: phases, snapshots, validators and transition checks. */
module Agents {
  import opened Prelude

  /** Timezone-aware instants, as integers on one time line. */
  type Time = int

  datatype WorkerKind = CounselPack | MappingProbe | ProblemGeneration

  datatype OperationKind =
    | CounselPackGenerate
    | MappingProbeResolve
    | ProblemSetGenerate
    | ProblemItemRefine
    | ProblemItemReverify

  datatype JobPhase = Queued | Leased | Running | Paused | Succeeded | Failed | Cancelled

  datatype PriorityClass = Batch | Standard | Interactive

  datatype JobError =
    | ValidationError
    | ValueError
    | InvalidTransition
    | AlreadyExists
    | NotFound
    | StaleLease
    | InvalidPhase

  const WORKER_RECOVERY_EXHAUSTED := "worker_recovery_exhausted"

  datatype WorkerJob = WorkerJob(
    jobId: string,
    executionId: string,
    tenantId: string,
    workerKind: WorkerKind,
    operation: OperationKind,
    payloadRef: string,
    payloadHash: string,
    phase: JobPhase,
    priorityClass: PriorityClass,
    dispatchAttempt: int,
    leaseGeneration: int,
    recoveryCount: int,
    maxRecoveryAttempts: int,
    leaseOwner: Option<string>,
    leaseAcquiredAt: Option<Time>,
    leaseExpiresAt: Option<Time>,
    checkpointRef: Option<string>,
    resultRef: Option<string>,
    errorCode: Option<string>,
    queuedAt: Time,
    startedAt: Option<Time>,
    finishedAt: Option<Time>)

  predicate ActivePhase(phase: JobPhase) {
    phase.Leased? || phase.Running?
  }

  predicate TerminalPhase(phase: JobPhase) {
    phase.Succeeded? || phase.Failed? || phase.Cancelled?
  }

  function WorkerFor(operation: OperationKind): WorkerKind {
    match operation
    case CounselPackGenerate => CounselPack
    case MappingProbeResolve => MappingProbe
    case _ => ProblemGeneration
  }

  // The validators of a snapshot.

  predicate NonEmptyIfPresent(text: Option<string>) {
    text.Some? ==> text.value != ""
  }

  predicate ValidFields(job: WorkerJob) {
    && job.tenantId != "" && job.payloadRef != "" && Sha256Ref(job.payloadHash)
    && job.dispatchAttempt >= 0 && job.leaseGeneration >= 0 && job.recoveryCount >= 0
    && job.maxRecoveryAttempts >= 1
    && NonEmptyIfPresent(job.leaseOwner) && NonEmptyIfPresent(job.checkpointRef)
    && NonEmptyIfPresent(job.resultRef) && NonEmptyIfPresent(job.errorCode)
  }

  predicate ValidLease(job: WorkerJob) {
    if ActivePhase(job.phase) then
      && job.leaseOwner.Some? && job.leaseAcquiredAt.Some? && job.leaseExpiresAt.Some?
      && job.leaseGeneration != 0
      && job.leaseExpiresAt.value > job.leaseAcquiredAt.value
    else
      job.leaseOwner.None? && job.leaseAcquiredAt.None? && job.leaseExpiresAt.None?
  }

  predicate ValidPhase(job: WorkerJob) {
    && (job.phase.Queued? && job.dispatchAttempt == 0 ==> job.startedAt.None? && job.checkpointRef.None?)
    && (job.phase.Running? || job.phase.Paused? ==> job.startedAt.Some? && job.checkpointRef.Some?)
    && (TerminalPhase(job.phase) <==> job.finishedAt.Some?)
    && (job.phase.Succeeded? ==> job.resultRef.Some? && job.startedAt.Some?)
    && (job.phase.Failed? ==> job.errorCode.Some?)
    && (!TerminalPhase(job.phase) ==> job.resultRef.None?)
    && (!job.phase.Failed? && !job.phase.Cancelled? ==> job.errorCode.None?)
  }

  predicate ValidTimes(job: WorkerJob) {
    && (job.startedAt.Some? ==> job.queuedAt <= job.startedAt.value)
    && (job.finishedAt.Some? ==> job.queuedAt <= job.finishedAt.value)
    && (job.startedAt.Some? && job.finishedAt.Some? ==> job.startedAt.value <= job.finishedAt.value)
    && (job.leaseAcquiredAt.Some? ==> job.queuedAt <= job.leaseAcquiredAt.value)
  }

  /** Everything `WorkerJob.model_validate` demands. */
  predicate ValidJob(job: WorkerJob) {
    && ValidFields(job)
    && WorkerFor(job.operation) == job.workerKind
    && job.recoveryCount <= job.maxRecoveryAttempts
    && ValidLease(job)
    && ValidPhase(job)
    && ValidTimes(job)
  }

  // The transition checks between two snapshots.

  predicate NormalTransition(from: JobPhase, to: JobPhase) {
    match from
    case Queued => to.Leased? || to.Cancelled?
    case Leased => to.Running? || to.Failed? || to.Cancelled?
    case Running => to.Paused? || TerminalPhase(to)
    case Paused => to.Cancelled?
    case _ => false
  }

  predicate SameCommand(previous: WorkerJob, current: WorkerJob) {
    && previous.jobId == current.jobId
    && previous.executionId == current.executionId
    && previous.tenantId == current.tenantId
    && previous.workerKind == current.workerKind
    && previous.operation == current.operation
    && previous.payloadRef == current.payloadRef
    && previous.payloadHash == current.payloadHash
    && previous.priorityClass == current.priorityClass
    && previous.maxRecoveryAttempts == current.maxRecoveryAttempts
    && previous.queuedAt == current.queuedAt
  }

  predicate GenerationDelta(previous: WorkerJob, current: WorkerJob, increment: int) {
    && current.leaseGeneration == previous.leaseGeneration + increment
    && current.dispatchAttempt == previous.dispatchAttempt + increment
  }

  predicate PreservedStart(previous: WorkerJob, current: WorkerJob) {
    previous.startedAt.Some? ==> current.startedAt == previous.startedAt
  }

  predicate JobTransition(previous: WorkerJob, current: WorkerJob) {
    && SameCommand(previous, current)
    && NormalTransition(previous.phase, current.phase)
    && GenerationDelta(previous, current, if current.phase.Leased? then 1 else 0)
    && current.recoveryCount == previous.recoveryCount
    && PreservedStart(previous, current)
  }

  predicate ExpiredRecovery(previous: WorkerJob, current: WorkerJob, recoveredAt: Time) {
    && SameCommand(previous, current)
    && ActivePhase(previous.phase) && previous.leaseExpiresAt.Some?
    && previous.leaseExpiresAt.value <= recoveredAt
    && current.phase == (if current.recoveryCount >= previous.maxRecoveryAttempts then Failed else Queued)
    && GenerationDelta(previous, current, 0)
    && current.recoveryCount == previous.recoveryCount + 1
    && PreservedStart(previous, current)
    && current.checkpointRef == previous.checkpointRef
    && (current.phase.Failed? ==> current.errorCode == Some(WORKER_RECOVERY_EXHAUSTED))
  }

  predicate PausedResume(previous: WorkerJob, current: WorkerJob) {
    && SameCommand(previous, current)
    && previous.phase.Paused? && current.phase.Queued?
    && GenerationDelta(previous, current, 0)
    && PreservedStart(previous, current)
    && current.recoveryCount == previous.recoveryCount
    && current.checkpointRef == previous.checkpointRef
  }

  /** The CHECK constraints of the `agent_run` table that the phases and counters must satisfy. */
  predicate AgentRunChecks(job: WorkerJob) {
    && WorkerFor(job.operation) == job.workerKind
    && Sha256Ref(job.payloadHash)
    && job.dispatchAttempt >= 0
    && job.dispatchAttempt == job.leaseGeneration
    && 0 <= job.recoveryCount <= job.maxRecoveryAttempts
    && job.maxRecoveryAttempts >= 1
    && (|| (&& ActivePhase(job.phase)
            && job.leaseOwner.Some? && job.leaseAcquiredAt.Some? && job.leaseExpiresAt.Some?
            && job.leaseExpiresAt.value > job.leaseAcquiredAt.value)
        || (&& !ActivePhase(job.phase)
            && job.leaseOwner.None? && job.leaseAcquiredAt.None? && job.leaseExpiresAt.None?))
    && (TerminalPhase(job.phase) <==> job.finishedAt.Some?)
    && (job.phase.Succeeded? ==> job.resultRef.Some?)
    && (TerminalPhase(job.phase) || job.resultRef.None?)
    && (job.phase.Failed? ==> job.errorCode.Some?)
    && (job.phase.Failed? || job.phase.Cancelled? || job.errorCode.None?)
    && (job.phase.Running? || job.phase.Paused? ==> job.startedAt.Some? && job.checkpointRef.Some?)
    && (job.phase.Succeeded? ==> job.startedAt.Some?)
    && (job.phase.Queued? && job.dispatchAttempt == 0 ==> job.startedAt.None? && job.checkpointRef.None?)
    && (job.startedAt.Some? ==> job.startedAt.value >= job.queuedAt)
    && (job.finishedAt.Some? ==> job.finishedAt.value >= job.queuedAt)
    && (job.startedAt.Some? && job.finishedAt.Some? ==> job.finishedAt.value >= job.startedAt.value)
    && (job.leaseAcquiredAt.Some? ==> job.leaseAcquiredAt.value >= job.queuedAt)
  }

  /** The validators of a snapshot and the constraints of the table agree, but for the strings that only the former
      require not to be empty and the generation that only they require of an active job. */
  lemma TableExactly(job: WorkerJob)
    ensures ValidJob(job) && job.dispatchAttempt == job.leaseGeneration <==>
            && AgentRunChecks(job)
            && job.tenantId != "" && job.payloadRef != ""
            && job.leaseOwner != Some("") && job.checkpointRef != Some("")
            && job.resultRef != Some("") && job.errorCode != Some("")
            && (job.phase.Leased? || job.phase.Running? ==> job.leaseGeneration >= 1)
  {
  }

  /** The job as it was before anything happened to it: what no transition may change. */
  function CommandOf(job: WorkerJob): WorkerJob {
    job.(phase := Queued, dispatchAttempt := 0, leaseGeneration := 0, recoveryCount := 0, leaseOwner := None,
         leaseAcquiredAt := None, leaseExpiresAt := None, checkpointRef := None, resultRef := None, errorCode := None,
         startedAt := None, finishedAt := None)
  }

  /** What the three transition checks let through: the command and the first start stay; a lease, and only a lease,
      counts generation and attempt; a recovery, and only a recovery, counts itself. */
  lemma TransitionsExactly(a: WorkerJob, b: WorkerJob, at: Time)
    ensures JobTransition(a, b) <==>
            && CommandOf(a) == CommandOf(b) && (a.startedAt.None? || b.startedAt == a.startedAt)
            && b.recoveryCount == a.recoveryCount
            && b.leaseGeneration - a.leaseGeneration == b.dispatchAttempt - a.dispatchAttempt
               == (if b.phase.Leased? then 1 else 0)
            && match b.phase
               case Queued => false
               case Leased => a.phase.Queued?
               case Running => a.phase.Leased?
               case Paused => a.phase.Running?
               case Succeeded => a.phase.Running?
               case Failed => a.phase.Leased? || a.phase.Running?
               case Cancelled => a.phase.Queued? || a.phase.Leased? || a.phase.Running? || a.phase.Paused?
    ensures ExpiredRecovery(a, b, at) <==>
            && CommandOf(a) == CommandOf(b) && (a.startedAt.None? || b.startedAt == a.startedAt)
            && b.recoveryCount == a.recoveryCount + 1 && b.checkpointRef == a.checkpointRef
            && b.leaseGeneration == a.leaseGeneration && b.dispatchAttempt == a.dispatchAttempt
            && (a.phase.Leased? || a.phase.Running?) && a.leaseExpiresAt.Some? && a.leaseExpiresAt.value <= at
            && (if b.recoveryCount < a.maxRecoveryAttempts then b.phase.Queued?
                else b.phase.Failed? && b.errorCode == Some("worker_recovery_exhausted"))
    ensures PausedResume(a, b) <==>
            && CommandOf(a) == CommandOf(b) && (a.startedAt.None? || b.startedAt == a.startedAt)
            && b.recoveryCount == a.recoveryCount && b.checkpointRef == a.checkpointRef
            && b.leaseGeneration == a.leaseGeneration && b.dispatchAttempt == a.dispatchAttempt
            && a.phase.Paused? && b.phase.Queued?
  {
  }
}
