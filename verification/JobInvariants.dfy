/** What one store operation can do to a job, and the invariants every operation keeps. */
module JobInvariants {
  import opened Prelude
  import opened Ordering
  import opened Agents
  import opened JobStore

  /** The operation picks this job. */
  predicate Selects(cmd: Command, job: WorkerJob) {
    match cmd
    case Add(_) => false
    case RecoverExpired(tenant, kind, at) => Expired(job, tenant, kind, at)
    case LeaseNext(tenant, kind, owner, at, expiresAt, interval) =>
      Waiting(job, tenant, kind) && owner != "" && at < expiresAt && interval > 0
    case _ => cmd.jobId == job.jobId && cmd.tenant == job.tenantId
  }

  /** A job is left alone, or it was selected and holds what the operation computes from it. */
  predicate Moved(cmd: Command, before: WorkerJob, after: WorkerJob) {
    after == before || (!cmd.Add? && Selects(cmd, before) && Apply(cmd, before) == Ok(after))
  }

  lemma ApplyResult(cmd: Command, before: WorkerJob)
    requires !cmd.Add? && Apply(cmd, before).Ok?
    ensures ValidJob(Apply(cmd, before).value)
    ensures SameCommand(before, Apply(cmd, before).value)
  {
  }

  /** What a new job looks like. */
  predicate Fresh(job: WorkerJob) {
    ValidJob(job) && job.phase.Queued? && job.dispatchAttempt == job.leaseGeneration == job.recoveryCount == 0
  }

  lemma StaysMoved(cmd: Command, job: WorkerJob)
    ensures Moved(cmd, job, job)
  {
  }

  lemma QueueIs(keys: set<Key>)
    ensures |Arrange(KeyLeq, keys)| == |keys|
    ensures forall key :: key in Arrange(KeyLeq, keys) <==> key in keys
    ensures Sorted(KeyLeq, Arrange(KeyLeq, keys))
  {
    KeyOrder();
    ArrangeSorts(KeyLeq, keys);
  }

  /** The head of the lease queue is a waiting job whose key is least among the waiting jobs. */
  lemma LeaseHead(jobs: Jobs, cmd: Command)
    requires WellKeyed(jobs) && cmd.LeaseNext? && cmd.agingInterval > 0
    requires LeaseKeys(jobs, cmd.tenant, cmd.kind, cmd.at, cmd.agingInterval) != {}
    ensures var queue := Arrange(KeyLeq, LeaseKeys(jobs, cmd.tenant, cmd.kind, cmd.at, cmd.agingInterval));
            && queue != []
            && queue[0].id in jobs && Waiting(jobs[queue[0].id], cmd.tenant, cmd.kind)
            && queue[0] == LeaseKey(jobs[queue[0].id], cmd.at, cmd.agingInterval)
            && forall id :: id in jobs && Waiting(jobs[id], cmd.tenant, cmd.kind) ==>
                              KeyLeq(queue[0], LeaseKey(jobs[id], cmd.at, cmd.agingInterval))
  {
    var keys := LeaseKeys(jobs, cmd.tenant, cmd.kind, cmd.at, cmd.agingInterval);
    var queue := Arrange(KeyLeq, keys);
    QueueIs(keys);
    assert queue[0] in queue;
    forall id | id in jobs && Waiting(jobs[id], cmd.tenant, cmd.kind)
      ensures KeyLeq(queue[0], LeaseKey(jobs[id], cmd.at, cmd.agingInterval))
    {
      var key := LeaseKey(jobs[id], cmd.at, cmd.agingInterval);
      assert key in queue;
      var i :| 0 <= i < |queue| && queue[i] == key;
      StrOrder();
    }
  }

  /** Writing what an operation computes from a selected job moves that job and no other. */
  lemma WriteMoves(jobs: Jobs, cmd: Command, id: string)
    requires WellKeyed(jobs) && !cmd.Add? && id in jobs && Selects(cmd, jobs[id])
    ensures var after := Write(jobs, Apply(cmd, jobs[id])).0;
            && WellKeyed(after) && after.Keys == jobs.Keys && |after| == |jobs|
            && (forall other :: other in jobs ==> Moved(cmd, jobs[other], after[other]))
  {
    var outcome := Apply(cmd, jobs[id]);
    if outcome.Ok? { ApplyResult(cmd, jobs[id]); }
    hide Apply, ValidJob, Selects;
    assert |Write(jobs, outcome).0| == |Write(jobs, outcome).0.Keys| && |jobs| == |jobs.Keys|;
  }

  lemma LeaseMoves(jobs: Jobs, cmd: Command)
    requires WellKeyed(jobs) && cmd.LeaseNext?
    ensures var after := StepLease(jobs, cmd).0;
            && WellKeyed(after) && after.Keys == jobs.Keys && |after| == |jobs|
            && (forall id :: id in jobs ==> Moved(cmd, jobs[id], after[id]))
  {
    hide Apply, ValidJob, LeaseKeys;
    if cmd.owner != "" && cmd.at < cmd.expiresAt && cmd.agingInterval > 0 {
      var keys := LeaseKeys(jobs, cmd.tenant, cmd.kind, cmd.at, cmd.agingInterval);
      if keys != {} {
        LeaseHead(jobs, cmd);
        WriteMoves(jobs, cmd, Arrange(KeyLeq, keys)[0].id);
      } else {
        QueueIs(keys);
      }
    }
  }

  lemma {:induction false} NoFailureInQueue(jobs: Jobs, queue: seq<Key>, at: Time)
    requires forall key :: key in queue ==> key.id in jobs
    ensures FirstFailure(jobs, queue, at).None? <==>
            forall key :: key in queue ==> RecoverOne(jobs[key.id], at).Ok?
  {
    hide RecoverOne;
    if queue != [] {
      NoFailureInQueue(jobs, queue[1..], at);
      assert queue == [queue[0]] + queue[1..];
      assert queue[0] in queue;
    }
  }

  /** Recovery fails as a whole exactly when some expired job cannot be recovered. */
  lemma RecoveryFails(jobs: Jobs, tenant: string, kind: WorkerKind, at: Time)
    requires WellKeyed(jobs)
    ensures StepRecover(jobs, tenant, kind, at).1.Rejected? <==>
            exists id :: id in jobs && Expired(jobs[id], tenant, kind, at) && RecoverOne(jobs[id], at).Err?
  {
    hide RecoverOne, Expired, Arrange, KeyLeq, AllRecovered;
    var keys := RecoveryKeys(jobs, tenant, kind, at);
    var queue := Arrange(KeyLeq, keys);
    QueueIs(keys);
    NoFailureInQueue(jobs, queue, at);
    forall id | id in jobs && Expired(jobs[id], tenant, kind, at) ensures RecoveryKey(jobs[id]) in queue {
      assert RecoveryKey(jobs[id]) in keys;
    }
  }

  lemma RecoverMoves(jobs: Jobs, tenant: string, kind: WorkerKind, at: Time)
    requires WellKeyed(jobs)
    ensures var after := StepRecover(jobs, tenant, kind, at).0;
            && WellKeyed(after) && after.Keys == jobs.Keys && |after| == |jobs|
            && (forall id :: id in jobs ==> Moved(RecoverExpired(tenant, kind, at), jobs[id], after[id]))
  {
    var cmd := RecoverExpired(tenant, kind, at);
    var (after, reply) := StepRecover(jobs, tenant, kind, at);
    RecoveryFails(jobs, tenant, kind, at);
    var all := AllRecovered(jobs, tenant, kind, at);
    assert |all| == |all.Keys| && |jobs| == |jobs.Keys|;
    forall id | id in jobs
      ensures id in after && after[id].jobId == id && Moved(cmd, jobs[id], after[id])
    {
      StaysMoved(cmd, jobs[id]);
      if !reply.Rejected? && Expired(jobs[id], tenant, kind, at) { RecoveredMoves(cmd, jobs[id]); }
      hide RecoverOne, Moved, RecoveryKeys;
    }
  }

  lemma RecoveredMoves(cmd: Command, job: WorkerJob)
    requires cmd.RecoverExpired? && Selects(cmd, job) && RecoverOne(job, cmd.at).Ok?
    ensures Moved(cmd, job, Recovered(job, cmd.at)) && Recovered(job, cmd.at).jobId == job.jobId
  {
  }

  /** Storing a list of snapshots one after the other. */
  function WriteAll(jobs: Jobs, written: seq<WorkerJob>): Jobs {
    if written == [] then jobs else
      var last := written[|written| - 1];
      WriteAll(jobs, written[..|written| - 1])[last.jobId := last]
  }

  lemma RecoveredKeepsId(job: WorkerJob, at: Time)
    ensures Recovered(job, at).jobId == job.jobId
  {
  }

  lemma {:induction false} WritesRecoveries(jobs: Jobs, queue: seq<Key>, at: Time)
    requires WellKeyed(jobs) && forall key :: key in queue ==> key.id in jobs
    ensures var after := WriteAll(jobs, Recoveries(jobs, queue, at));
            && after.Keys == jobs.Keys
            && forall id :: id in jobs ==>
                 after[id] == if QueueHas(queue, id) then Recovered(jobs[id], at) else jobs[id]
  {
    hide *;
    if queue == [] {
      NothingWritten(jobs, at);
    } else {
      var shorter, key := queue[..|queue| - 1], queue[|queue| - 1];
      assert queue == shorter + [key] && key in queue;
      WritesRecoveries(jobs, shorter, at);
      RecoveredKeepsId(jobs[key.id], at);
      KeyedAt(jobs, key.id);
      LastRecovery(jobs, queue, at);
      forall id ensures QueueHas(queue, id) <==> QueueHas(shorter, id) || id == key.id { QueueGrows(shorter, key, id); }
    }
  }

  lemma NothingWritten(jobs: Jobs, at: Time)
    ensures WriteAll(jobs, Recoveries(jobs, [], at)) == jobs
    ensures forall id :: !QueueHas([], id)
  {
  }

  lemma KeyedAt(jobs: Jobs, id: string)
    requires WellKeyed(jobs) && id in jobs
    ensures jobs[id].jobId == id
  {
  }

  lemma LastRecovery(jobs: Jobs, queue: seq<Key>, at: Time)
    requires queue != [] && forall key :: key in queue ==> key.id in jobs
    requires queue[|queue| - 1].id in jobs
    ensures var shorter, last := queue[..|queue| - 1], Recovered(jobs[queue[|queue| - 1].id], at);
            && (forall key :: key in shorter ==> key.id in jobs)
            && WriteAll(jobs, Recoveries(jobs, queue, at))
               == WriteAll(jobs, Recoveries(jobs, shorter, at))[last.jobId := last]
  {
    hide Recovered;
    var shorter := queue[..|queue| - 1];
    forall key | key in shorter ensures key.id in jobs { assert key in queue; }
    var recoveries := Recoveries(jobs, queue, at);
    assert recoveries[..|recoveries| - 1] == Recoveries(jobs, shorter, at);
  }

  ghost predicate QueueHas(queue: seq<Key>, id: string) {
    exists key :: key in queue && key.id == id
  }

  lemma QueueGrows(queue: seq<Key>, key: Key, id: string)
    ensures QueueHas(queue + [key], id) <==> QueueHas(queue, id) || id == key.id
  {
    if id == key.id { assert key in queue + [key]; }
    if QueueHas(queue, id) {
      var other :| other in queue && other.id == id;
      assert other in queue + [key];
    }
  }

  /** Storing the recovered snapshots one by one gives the store in which every expired job is recovered. */
  lemma WritesAllRecovered(jobs: Jobs, tenant: string, kind: WorkerKind, at: Time, queue: seq<Key>)
    requires WellKeyed(jobs) && queue == Arrange(KeyLeq, RecoveryKeys(jobs, tenant, kind, at))
    requires forall key :: key in queue ==> key.id in jobs
    ensures WriteAll(jobs, Recoveries(jobs, queue, at)) == AllRecovered(jobs, tenant, kind, at)
  {
    hide Recovered, Expired, RecoveryKeys, Arrange;
    var after := WriteAll(jobs, Recoveries(jobs, queue, at));
    WritesRecoveries(jobs, queue, at);
    hide WriteAll, Recoveries;
    forall id | id in jobs ensures after[id] == AllRecovered(jobs, tenant, kind, at)[id] {
      QueuedIffExpired(jobs, tenant, kind, at, queue, id);
    }
  }

  lemma QueuedIffExpired(jobs: Jobs, tenant: string, kind: WorkerKind, at: Time, queue: seq<Key>, id: string)
    requires WellKeyed(jobs) && queue == Arrange(KeyLeq, RecoveryKeys(jobs, tenant, kind, at)) && id in jobs
    ensures Expired(jobs[id], tenant, kind, at) <==> QueueHas(queue, id)
  {
    hide Expired;
    QueueIs(RecoveryKeys(jobs, tenant, kind, at));
    if Expired(jobs[id], tenant, kind, at) {
      assert RecoveryKey(jobs[id]) in RecoveryKeys(jobs, tenant, kind, at);
      assert RecoveryKey(jobs[id]) in queue;
    }
  }

  /** Every operation keeps the filing, moves each stored job by `Moved`, and files a new job only by `Add`. */
  lemma StepMoves(jobs: Jobs, cmd: Command)
    requires WellKeyed(jobs)
    ensures var after := Step(jobs, cmd).0;
            && WellKeyed(after)
            && (forall id :: id in jobs ==> id in after && Moved(cmd, jobs[id], after[id]))
            && (forall id :: id in after && id !in jobs ==> cmd.Add? && after[id] == cmd.job && Fresh(cmd.job))
  {
    hide Moved, Apply, ValidJob, StepRecover, StepLease;
    forall id | id in jobs ensures Moved(cmd, jobs[id], jobs[id]) { StaysMoved(cmd, jobs[id]); }
    match cmd
    case Add(job) =>
    case RecoverExpired(tenant, kind, at) => RecoverMoves(jobs, tenant, kind, at);
    case LeaseNext(_, _, _, _, _, _) => LeaseMoves(jobs, cmd);
    case _ =>
      if cmd.jobId in jobs && jobs[cmd.jobId].tenantId == cmd.tenant { WriteMoves(jobs, cmd, cmd.jobId); }
  }

  /** The clock-free invariant of a stored job. */
  predicate Sound(job: WorkerJob) {
    && ValidJob(job)
    && job.dispatchAttempt == job.leaseGeneration
    && (!TerminalPhase(job.phase) ==> job.recoveryCount < job.maxRecoveryAttempts)
    && (job.phase.Paused? ==> job.dispatchAttempt >= 1)
    && (job.recoveryCount == job.maxRecoveryAttempts ==>
          job.phase.Failed? && job.errorCode == Some(WORKER_RECOVERY_EXHAUSTED))
  }

  lemma ApplyKeepsSound(cmd: Command, before: WorkerJob, after: WorkerJob)
    requires Sound(before) && Moved(cmd, before, after)
    ensures Sound(after)
  {
  }

  /** The invariant that needs a clock: no instant recorded on a job as past lies in the future of `now`. */
  predicate Timely(job: WorkerJob, now: Time) {
    && job.queuedAt <= now
    && (job.startedAt.Some? ==> job.startedAt.value <= now)
    && (job.leaseAcquiredAt.Some? ==> job.leaseAcquiredAt.value <= now)
    && (job.finishedAt.Some? ==> job.finishedAt.value <= now)
  }

  lemma ApplyKeepsTimely(cmd: Command, before: WorkerJob, after: WorkerJob)
    requires !cmd.Add? && Timely(before, cmd.at) && Moved(cmd, before, after)
    ensures Timely(after, cmd.at)
  {
    hide ValidJob, JobTransition, ExpiredRecovery, PausedResume, SameCommand, Selects;
    if after != before { ApplyResult(cmd, before); }
  }

  /** The arguments a caller passes are usable: references and codes are not empty strings. */
  predicate UsableArguments(cmd: Command) {
    match cmd
    case MarkRunning(_, _, _, _, checkpoint, _) => checkpoint != ""
    case Pause(_, _, _, _, checkpoint, _) => checkpoint != ""
    case Succeed(_, _, _, _, result, _) => result != ""
    case Fail(_, _, _, _, error, partial, _) => error != "" && NonEmptyIfPresent(partial)
    case CancelWaiting(_, _, reason, _) => NonEmptyIfPresent(reason)
    case CancelOwned(_, _, _, _, safePoint, reason, _) => NonEmptyIfPresent(safePoint) && NonEmptyIfPresent(reason)
    case _ => true
  }

  predicate Internal(outcome: Result<WorkerJob, JobError>) {
    outcome.Err? && (outcome.error.ValidationError? || outcome.error.InvalidTransition?)
  }

  lemma FinishNeverInvalid(job: WorkerJob, phase: JobPhase, result: Option<string>, error: Option<string>, at: Time)
    requires Sound(job) && Timely(job, at) && NonEmptyIfPresent(result) && NonEmptyIfPresent(error)
    requires NormalTransition(job.phase, phase) && TerminalPhase(phase)
    requires phase.Succeeded? ==> result.Some? && error.None?
    requires phase.Failed? ==> error.Some?
    ensures Finish(job, phase, result, error, at).Ok?
  {
  }

  lemma OwnedNeverInvalid(cmd: Command, job: WorkerJob)
    requires Fenced(cmd) && Sound(job) && Timely(job, cmd.at) && UsableArguments(cmd)
    ensures !Internal(Apply(cmd, job))
  {
    if PassesFence(cmd, job) {
      match cmd
      case MarkRunning(_, _, _, _, _, _) =>
      case RenewLease(_, _, _, _, _, _) =>
      case Pause(_, _, _, _, _, _) =>
      case Succeed(_, _, _, _, result, at) => FinishNeverInvalid(job, Succeeded, Some(result), None, at);
      case Fail(_, _, _, _, error, partial, at) => FinishNeverInvalid(job, Failed, partial, Some(error), at);
      case CancelOwned(_, _, _, _, safePoint, reason, at) =>
        if safePoint.None? {
          FinishNeverInvalid(job, Cancelled, None, reason, at);
        } else {
          FinishNeverInvalid(job.(checkpointRef := safePoint), Cancelled, None, reason, at);
        }
    }
  }

  /** On a sound job whose history is not in the future, no validator and no transition assertion fires. */
  lemma NoInternalFailure(cmd: Command, job: WorkerJob)
    requires !cmd.Add? && Sound(job) && Timely(job, cmd.at) && Selects(cmd, job) && UsableArguments(cmd)
    ensures !Internal(Apply(cmd, job))
    ensures cmd.RecoverExpired? || cmd.LeaseNext? || (cmd.Resume? && job.phase.Paused?) ==> Apply(cmd, job).Ok?
  {
    if Fenced(cmd) {
      OwnedNeverInvalid(cmd, job);
    } else if cmd.CancelWaiting? && (job.phase.Queued? || job.phase.Paused?) {
      FinishNeverInvalid(job, Cancelled, None, cmd.reason, cmd.at);
    }
  }

  /** Leasing a sound waiting job fails exactly when the job is dated after the lease. */
  lemma LeaseFailsExactly(cmd: Command, job: WorkerJob)
    requires cmd.LeaseNext? && Sound(job) && Selects(cmd, job)
    ensures Apply(cmd, job).Err? <==> cmd.at < job.queuedAt
  {
  }

  /** Recovering a sound expired job fails exactly when it is its last recovery and it started after `at`. */
  lemma RecoveryFailsExactly(job: WorkerJob, tenant: string, kind: WorkerKind, at: Time)
    requires Sound(job) && Expired(job, tenant, kind, at)
    ensures RecoverOne(job, at).Err? <==>
            job.recoveryCount + 1 == job.maxRecoveryAttempts && job.startedAt.Some? && at < job.startedAt.value
  {
  }

  lemma SoundSatisfiesTable(job: WorkerJob)
    requires Sound(job)
    ensures AgentRunChecks(job)
  {
  }
}
