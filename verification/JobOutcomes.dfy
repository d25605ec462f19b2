/**
 * What each operation answers and stores, read off the stored fields alone: on the jobs a run can reach, the
 * validators and transition checks of the store come down to these conditions and these snapshots.
 */
module JobOutcomes {
  import opened Prelude
  import opened Ordering
  import opened Agents
  import opened JobStore
  import opened JobInvariants
  import opened JobRuns

  /** A stored job of the caller's tenant, sound and not dated after the operation. */
  ghost predicate Settled(jobs: Jobs, cmd: Command) {
    && WellKeyed(jobs) && Targeted(cmd)
    && cmd.jobId in jobs && jobs[cmd.jobId].tenantId == cmd.tenant
    && Sound(jobs[cmd.jobId]) && Timely(jobs[cmd.jobId], cmd.at)
  }

  /** The operation stores this snapshot over the named job and answers with it, or fails and changes nothing. */
  ghost predicate AnsweredWith(jobs: Jobs, cmd: Command, answer: Result<WorkerJob, JobError>)
    requires WellKeyed(jobs) && Targeted(cmd)
  {
    match answer
    case Ok(job) => Step(jobs, cmd) == (jobs[cmd.jobId := job], One(job))
    case Err(error) => Step(jobs, cmd) == (jobs, Rejected(error))
  }

  /** The lease named by owner and generation has not expired. */
  predicate Holds(job: WorkerJob, owner: string, generation: int, at: Time) {
    && job.leaseOwner == Some(owner) && job.leaseGeneration == generation
    && job.leaseExpiresAt.Some? && at < job.leaseExpiresAt.value
  }

  function WithoutLease(job: WorkerJob): WorkerJob {
    job.(leaseOwner := None, leaseAcquiredAt := None, leaseExpiresAt := None)
  }

  /** Whatever the operation, a job that is not stored or belongs to another tenant is not found. */
  lemma UnknownJobAnswers(jobs: Jobs, cmd: Command)
    requires WellKeyed(jobs) && Targeted(cmd)
    ensures cmd.jobId !in jobs || jobs[cmd.jobId].tenantId != cmd.tenant <==> Step(jobs, cmd).1 == Rejected(NotFound)
    ensures Step(jobs, cmd).1 == Rejected(NotFound) ==> Step(jobs, cmd).0 == jobs
  {
  }

  lemma ResumeAnswers(jobs: Jobs, cmd: Command)
    requires Settled(jobs, cmd) && cmd.Resume?
    ensures var job := jobs[cmd.jobId];
      AnsweredWith(jobs, cmd, if !job.phase.Paused? then Err(InvalidPhase) else Ok(job.(phase := Queued)))
  {
  }

  lemma MarkRunningAnswers(jobs: Jobs, cmd: Command)
    requires Settled(jobs, cmd) && cmd.MarkRunning?
    ensures var job := jobs[cmd.jobId];
      AnsweredWith(jobs, cmd,
                   if !(job.phase.Leased? && Holds(job, cmd.owner, cmd.generation, cmd.at)) then Err(StaleLease)
                   else if cmd.checkpoint == "" then Err(ValidationError)
                   else Ok(job.(phase := Running, checkpointRef := Some(cmd.checkpoint),
                                startedAt := if job.startedAt.None? then Some(cmd.at) else job.startedAt)))
  {
  }

  lemma RenewLeaseAnswers(jobs: Jobs, cmd: Command)
    requires Settled(jobs, cmd) && cmd.RenewLease?
    ensures var job := jobs[cmd.jobId];
      AnsweredWith(jobs, cmd,
                   if !((job.phase.Leased? || job.phase.Running?) && Holds(job, cmd.owner, cmd.generation, cmd.at)) then
                     Err(StaleLease)
                   else if cmd.expiresAt <= job.leaseExpiresAt.value then Err(ValueError)
                   else Ok(job.(leaseExpiresAt := Some(cmd.expiresAt))))
  {
  }

  lemma PauseAnswers(jobs: Jobs, cmd: Command)
    requires Settled(jobs, cmd) && cmd.Pause?
    ensures var job := jobs[cmd.jobId];
      AnsweredWith(jobs, cmd,
                   if !(job.phase.Running? && Holds(job, cmd.owner, cmd.generation, cmd.at)) then Err(StaleLease)
                   else if cmd.checkpoint == "" then Err(ValidationError)
                   else Ok(WithoutLease(job.(phase := Paused, checkpointRef := Some(cmd.checkpoint)))))
  {
  }

  lemma SucceedAnswers(jobs: Jobs, cmd: Command)
    requires Settled(jobs, cmd) && cmd.Succeed?
    ensures var job := jobs[cmd.jobId];
      AnsweredWith(jobs, cmd,
                   if !(job.phase.Running? && Holds(job, cmd.owner, cmd.generation, cmd.at)) then Err(StaleLease)
                   else if cmd.result == "" then Err(ValidationError)
                   else Ok(WithoutLease(job.(phase := Succeeded, resultRef := Some(cmd.result),
                                             finishedAt := Some(cmd.at)))))
  {
  }

  lemma FailAnswers(jobs: Jobs, cmd: Command)
    requires Settled(jobs, cmd) && cmd.Fail?
    ensures var job := jobs[cmd.jobId];
      AnsweredWith(jobs, cmd,
                   if !((job.phase.Leased? || job.phase.Running?) && Holds(job, cmd.owner, cmd.generation, cmd.at)) then
                     Err(StaleLease)
                   else if cmd.error == "" || cmd.partial == Some("") then Err(ValidationError)
                   else Ok(WithoutLease(job.(phase := Failed, resultRef := cmd.partial, errorCode := Some(cmd.error),
                                             finishedAt := Some(cmd.at)))))
  {
  }

  lemma CancelWaitingAnswers(jobs: Jobs, cmd: Command)
    requires Settled(jobs, cmd) && cmd.CancelWaiting?
    ensures var job := jobs[cmd.jobId];
      AnsweredWith(jobs, cmd,
                   if !job.phase.Queued? && !job.phase.Paused? then Err(InvalidPhase)
                   else if cmd.reason == Some("") then Err(ValidationError)
                   else Ok(job.(phase := Cancelled, errorCode := cmd.reason, finishedAt := Some(cmd.at))))
  {
  }

  /** A running job needs a safe point to be cancelled at; a job that is only leased does not, but keeps one given. */
  lemma CancelOwnedAnswers(jobs: Jobs, cmd: Command)
    requires Settled(jobs, cmd) && cmd.CancelOwned?
    ensures var job := jobs[cmd.jobId];
      AnsweredWith(jobs, cmd,
                   if !((job.phase.Leased? || job.phase.Running?) && Holds(job, cmd.owner, cmd.generation, cmd.at)) then
                     Err(StaleLease)
                   else if job.phase.Running? && (cmd.safePoint.None? || cmd.safePoint == Some("")) then Err(ValueError)
                   else if cmd.safePoint == Some("") || cmd.reason == Some("") then Err(ValidationError)
                   else Ok(WithoutLease(job.(phase := Cancelled, errorCode := cmd.reason, finishedAt := Some(cmd.at),
                                             checkpointRef := if cmd.safePoint.Some? then cmd.safePoint
                                                              else job.checkpointRef))))
  {
  }

  // A new job.

  /** The kind of worker that an operation is for. */
  predicate Suits(operation: OperationKind, kind: WorkerKind) {
    match kind
    case CounselPack => operation.CounselPackGenerate?
    case MappingProbe => operation.MappingProbeResolve?
    case ProblemGeneration =>
      operation.ProblemSetGenerate? || operation.ProblemItemRefine? || operation.ProblemItemReverify?
  }

  /** A job is accepted as new exactly if its command is complete and nothing has happened to it. */
  lemma FreshExactly(job: WorkerJob)
    ensures Fresh(job) <==>
            && job.tenantId != "" && job.payloadRef != "" && Sha256Ref(job.payloadHash)
            && Suits(job.operation, job.workerKind) && job.maxRecoveryAttempts >= 1
            && job.phase.Queued?
            && job.dispatchAttempt == 0 && job.leaseGeneration == 0 && job.recoveryCount == 0
            && job.leaseOwner.None? && job.leaseAcquiredAt.None? && job.leaseExpiresAt.None?
            && job.checkpointRef.None? && job.resultRef.None? && job.errorCode.None?
            && job.startedAt.None? && job.finishedAt.None?
  {
  }

  lemma AddAnswers(jobs: Jobs, job: WorkerJob)
    requires WellKeyed(jobs)
    ensures Fresh(job) && job.jobId !in jobs ==> Step(jobs, Add(job)) == (jobs[job.jobId := job], One(job))
    ensures Fresh(job) && job.jobId in jobs ==> Step(jobs, Add(job)) == (jobs, Rejected(AlreadyExists))
    ensures !Fresh(job) ==> Step(jobs, Add(job)).0 == jobs
                            && Step(jobs, Add(job)).1 in {Rejected(ValidationError), Rejected(ValueError)}
  {
  }

  // Leasing and recovery.

  /** The job waits for these workers. */
  predicate IsWaiting(job: WorkerJob, tenant: string, kind: WorkerKind) {
    job.tenantId == tenant && job.workerKind == kind && job.phase.Queued?
  }

  /** The job is leased or running for these workers under a lease that is over by `at`. */
  predicate HasLapsed(job: WorkerJob, tenant: string, kind: WorkerKind, at: Time) {
    && job.tenantId == tenant && job.workerKind == kind && (job.phase.Leased? || job.phase.Running?)
    && job.leaseExpiresAt.Some? && job.leaseExpiresAt.value <= at
  }

  function LeasedBy(job: WorkerJob, owner: string, at: Time, until: Time): WorkerJob {
    job.(phase := Leased, dispatchAttempt := job.dispatchAttempt + 1, leaseGeneration := job.leaseGeneration + 1,
         leaseOwner := Some(owner), leaseAcquiredAt := Some(at), leaseExpiresAt := Some(until))
  }

  lemma LeaseOfOne(job: WorkerJob, cmd: Command)
    requires SaneLease(cmd) && Sound(job) && Timely(job, cmd.at) && job.phase.Queued?
    ensures Apply(cmd, job) == Ok(LeasedBy(job, cmd.owner, cmd.at, cmd.expiresAt))
  {
  }

  /** A lease answers with nothing exactly if no job waits for these workers; else it stores a lease on one of them. */
  lemma LeaseAnswers(jobs: Jobs, cmd: Command)
    requires cmd.LeaseNext? && GoodStore(jobs, cmd.at)
    ensures var (after, reply) := Step(jobs, cmd);
      if !SaneLease(cmd) then reply == Rejected(ValueError) && after == jobs
      else if forall id :: id in jobs ==> !IsWaiting(jobs[id], cmd.tenant, cmd.kind) then
        reply == Nothing && after == jobs
      else
        && reply.One? && reply.job.jobId in jobs && IsWaiting(jobs[reply.job.jobId], cmd.tenant, cmd.kind)
        && reply.job == LeasedBy(jobs[reply.job.jobId], cmd.owner, cmd.at, cmd.expiresAt)
        && after == jobs[reply.job.jobId := reply.job]
  {
    if SaneLease(cmd) {
      var keys := LeaseKeys(jobs, cmd.tenant, cmd.kind, cmd.at, cmd.agingInterval);
      hide Apply, Sound, Timely, KeyLeq, Arrange, EffectiveLevel;
      if keys != {} {
        LeaseHead(jobs, cmd);
        LeaseOfOne(jobs[Arrange(KeyLeq, keys)[0].id], cmd);
      } else {
        QueueIs(keys);
        NobodyWaits(jobs, cmd);
      }
    }
  }

  lemma NobodyWaits(jobs: Jobs, cmd: Command)
    requires cmd.LeaseNext? && cmd.agingInterval > 0
    ensures LeaseKeys(jobs, cmd.tenant, cmd.kind, cmd.at, cmd.agingInterval) == {} <==>
            forall id :: id in jobs ==> !IsWaiting(jobs[id], cmd.tenant, cmd.kind)
  {
    hide LeaseKey;
    var keys := LeaseKeys(jobs, cmd.tenant, cmd.kind, cmd.at, cmd.agingInterval);
    forall id | id in jobs && IsWaiting(jobs[id], cmd.tenant, cmd.kind) ensures keys != {} {
      assert LeaseKey(jobs[id], cmd.at, cmd.agingInterval) in keys;
    }
  }

  /** What recovery makes of a job whose lease has lapsed: queued again, or failed when that was its last recovery. */
  function RecoveredAs(job: WorkerJob, at: Time): WorkerJob {
    var counted := WithoutLease(job.(recoveryCount := job.recoveryCount + 1));
    if job.recoveryCount + 1 < job.maxRecoveryAttempts then counted.(phase := Queued)
    else counted.(phase := Failed, errorCode := Some("worker_recovery_exhausted"), finishedAt := Some(at))
  }

  lemma RecoveryOfOne(job: WorkerJob, tenant: string, kind: WorkerKind, at: Time)
    requires Sound(job) && Timely(job, at)
    ensures HasLapsed(job, tenant, kind, at) <==> Expired(job, tenant, kind, at)
    ensures HasLapsed(job, tenant, kind, at) ==> RecoverOne(job, at) == Ok(RecoveredAs(job, at))
  {
  }

  /** Earlier queued first, ties by identifier. */
  predicate QueuedBefore(a: WorkerJob, b: WorkerJob) {
    a.queuedAt < b.queuedAt || (a.queuedAt == b.queuedAt && StrLess(a.jobId, b.jobId))
  }

  /** Recovery succeeds, changes exactly the jobs whose lease has lapsed, and answers with them, each once, in the
      order in which they were queued. */
  lemma RecoveryAnswers(jobs: Jobs, tenant: string, kind: WorkerKind, at: Time)
    requires GoodStore(jobs, at)
    ensures var (after, reply) := Step(jobs, RecoverExpired(tenant, kind, at));
      && after.Keys == jobs.Keys
      && (forall id :: id in jobs ==>
            after[id] == if HasLapsed(jobs[id], tenant, kind, at) then RecoveredAs(jobs[id], at) else jobs[id])
      && reply.Many?
      && (forall i, j :: 0 <= i < j < |reply.jobs| ==> QueuedBefore(reply.jobs[i], reply.jobs[j]))
      && (forall job :: job in reply.jobs <==>
            job.jobId in jobs && HasLapsed(jobs[job.jobId], tenant, kind, at)
            && job == RecoveredAs(jobs[job.jobId], at))
  {
    RecoveryFails(jobs, tenant, kind, at);
    forall id | id in jobs
      ensures HasLapsed(jobs[id], tenant, kind, at) <==> Expired(jobs[id], tenant, kind, at)
      ensures HasLapsed(jobs[id], tenant, kind, at) ==> RecoverOne(jobs[id], at) == Ok(RecoveredAs(jobs[id], at))
    {
      RecoveryOfOne(jobs[id], tenant, kind, at);
    }
    RecoveriesInOrder(jobs, tenant, kind, at);
    hide RecoverOne, Expired, HasLapsed, Sound, Timely, Arrange, KeyLeq, RecoveredAs;
  }

  /** The recovered job that a place in the recovery queue stands for. */
  ghost predicate StandsFor(jobs: Jobs, key: Key, tenant: string, kind: WorkerKind, at: Time) {
    && key.id in jobs && HasLapsed(jobs[key.id], tenant, kind, at)
    && Recovered(jobs[key.id], at) == RecoveredAs(jobs[key.id], at)
    && key == Key(0, RecoveredAs(jobs[key.id], at).queuedAt, RecoveredAs(jobs[key.id], at).jobId)
  }

  lemma KeysStand(jobs: Jobs, tenant: string, kind: WorkerKind, at: Time)
    requires GoodStore(jobs, at)
    ensures forall key :: key in RecoveryKeys(jobs, tenant, kind, at) ==> StandsFor(jobs, key, tenant, kind, at)
    ensures forall id :: id in jobs && HasLapsed(jobs[id], tenant, kind, at) ==>
                           Key(0, jobs[id].queuedAt, id) in RecoveryKeys(jobs, tenant, kind, at)
  {
    forall id | id in jobs
      ensures Expired(jobs[id], tenant, kind, at) ==> StandsFor(jobs, RecoveryKey(jobs[id]), tenant, kind, at)
      ensures HasLapsed(jobs[id], tenant, kind, at) ==>
                RecoveryKey(jobs[id]) in RecoveryKeys(jobs, tenant, kind, at)
                && RecoveryKey(jobs[id]) == Key(0, jobs[id].queuedAt, id)
    {
      RecoveryOfOne(jobs[id], tenant, kind, at);
      hide RecoverOne, Sound, Timely;
    }
    hide RecoverOne, Expired, Sound, Timely, StandsFor, HasLapsed;
  }

  lemma KeyStands(jobs: Jobs, key: Key, tenant: string, kind: WorkerKind, at: Time)
    requires StandsFor(jobs, key, tenant, kind, at)
    ensures var job := Recovered(jobs[key.id], at);
      && job == RecoveredAs(jobs[key.id], at) && HasLapsed(jobs[key.id], tenant, kind, at)
      && key == Key(0, job.queuedAt, job.jobId)
  {
  }

  lemma RecoveriesInOrder(jobs: Jobs, tenant: string, kind: WorkerKind, at: Time)
    requires GoodStore(jobs, at)
    ensures var queue := Arrange(KeyLeq, RecoveryKeys(jobs, tenant, kind, at));
      && (forall key :: key in queue ==> key.id in jobs)
      && var list := Recoveries(jobs, queue, at);
         && (forall i, j :: 0 <= i < j < |list| ==> QueuedBefore(list[i], list[j]))
         && (forall job :: job in list <==>
               job.jobId in jobs && HasLapsed(jobs[job.jobId], tenant, kind, at)
               && job == RecoveredAs(jobs[job.jobId], at))
  {
    var queue := Arrange(KeyLeq, RecoveryKeys(jobs, tenant, kind, at));
    KeysStand(jobs, tenant, kind, at);
    QueueIs(RecoveryKeys(jobs, tenant, kind, at));
    DistinctQueue(RecoveryKeys(jobs, tenant, kind, at));
    hide *;
    forall i | 0 <= i < |queue| ensures StandsFor(jobs, queue[i], tenant, kind, at) && queue[i].id in jobs {
      assert queue[i] in queue;
      KeyStands(jobs, queue[i], tenant, kind, at);
    }
    ListInOrder(jobs, queue, tenant, kind, at);
    forall id | id in jobs && HasLapsed(jobs[id], tenant, kind, at) ensures exists key :: key in queue && key.id == id {
      assert Key(0, jobs[id].queuedAt, id) in queue;
    }
    ListHolds(jobs, queue, tenant, kind, at);
  }

  lemma ListInOrder(jobs: Jobs, queue: seq<Key>, tenant: string, kind: WorkerKind, at: Time)
    requires forall key :: key in queue ==> key.id in jobs
    requires Sorted(KeyLeq, queue) && Distinct(queue)
    requires forall i :: 0 <= i < |queue| ==> StandsFor(jobs, queue[i], tenant, kind, at)
    ensures var list := Recoveries(jobs, queue, at);
            forall i, j :: 0 <= i < j < |list| ==> QueuedBefore(list[i], list[j])
  {
    hide Recovered, RecoveredAs, HasLapsed, StandsFor;
    var list := Recoveries(jobs, queue, at);
    forall i, j | 0 <= i < j < |list| ensures QueuedBefore(list[i], list[j]) {
      assert KeyLeq(queue[i], queue[j]) && queue[i] != queue[j];
      KeyStands(jobs, queue[i], tenant, kind, at);
      KeyStands(jobs, queue[j], tenant, kind, at);
    }
  }

  lemma ListHolds(jobs: Jobs, queue: seq<Key>, tenant: string, kind: WorkerKind, at: Time)
    requires forall key :: key in queue ==> key.id in jobs
    requires forall i :: 0 <= i < |queue| ==> StandsFor(jobs, queue[i], tenant, kind, at)
    requires forall id :: id in jobs && HasLapsed(jobs[id], tenant, kind, at) ==>
                            exists key :: key in queue && key.id == id
    ensures forall job :: job in Recoveries(jobs, queue, at) <==>
              job.jobId in jobs && HasLapsed(jobs[job.jobId], tenant, kind, at)
              && job == RecoveredAs(jobs[job.jobId], at)
  {
    hide Recovered, RecoveredAs, HasLapsed, StandsFor;
    var list := Recoveries(jobs, queue, at);
    forall i | 0 <= i < |list|
      ensures list[i].jobId == queue[i].id && list[i] == RecoveredAs(jobs[queue[i].id], at)
      ensures HasLapsed(jobs[queue[i].id], tenant, kind, at)
    {
      KeyStands(jobs, queue[i], tenant, kind, at);
    }
    forall id | id in jobs && HasLapsed(jobs[id], tenant, kind, at) ensures RecoveredAs(jobs[id], at) in list {
      var i :| 0 <= i < |queue| && queue[i].id == id;
      assert list[i] in list;
    }
  }

  lemma DistinctQueue(keys: set<Key>)
    ensures Distinct(Arrange(KeyLeq, keys))
  {
    KeyOrder();
    ArrangeSorts(KeyLeq, keys);
  }

  // In runs.

  /** In a run whose clock has advanced so far, a named job of the caller's tenant is settled, so that the answers
      above hold of it; any other is not found. */
  lemma SettledInRuns(run: seq<Command>, i: nat)
    requires i < |run| && Targeted(run[i]) && ReadsAt(run, i, run[i].at)
    ensures Settled(At(run, i), run[i]) <==> ReplyOf(run, i) != Rejected(NotFound)
  {
    GoodAt(run, i, run[i].at);
    UnknownJobAnswers(At(run, i), run[i]);
    hide Step, At;
  }

  /** A worker's life with a job, at one clock reading: leased, started and finished. */
  function Life(job: WorkerJob, owner: string, now: Time, until: Time): seq<Command> {
    [Add(job), LeaseNext(job.tenantId, job.workerKind, owner, now, until, 1),
     MarkRunning(job.tenantId, job.jobId, owner, 1, "checkpoint", now),
     Succeed(job.tenantId, job.jobId, owner, 1, "result", now)]
  }

  /** The job before operation `i` of its life, for `i` from 1 to 4. */
  function InLife(job: WorkerJob, owner: string, now: Time, until: Time, i: nat): WorkerJob {
    var leased := LeasedBy(job, owner, now, until);
    var started := leased.(phase := Running, checkpointRef := Some("checkpoint"), startedAt := Some(now));
    if i <= 1 then job
    else if i == 2 then leased
    else if i == 3 then started
    else WithoutLease(started.(phase := Succeeded, resultRef := Some("result"), finishedAt := Some(now)))
  }

  lemma LifeStep(job: WorkerJob, owner: string, now: Time, until: Time, i: nat)
    requires Fresh(job) && job.queuedAt <= now < until && owner != "" && 1 <= i <= 3
    requires GoodStore(map[job.jobId := InLife(job, owner, now, until, i)], now)
    ensures var next := InLife(job, owner, now, until, i + 1);
      Step(map[job.jobId := InLife(job, owner, now, until, i)], Life(job, owner, now, until)[i])
      == (map[job.jobId := next], One(next))
  {
    var jobs, cmd := map[job.jobId := InLife(job, owner, now, until, i)], Life(job, owner, now, until)[i];
    var next := InLife(job, owner, now, until, i + 1);
    FreshExactly(job);
    hide Step, Sound, Timely, Fresh;
    assert job.jobId in jobs && jobs[job.jobId := next] == map[job.jobId := next];
    if i == 1 {
      LeaseAnswers(jobs, cmd);
    } else if i == 2 {
      MarkRunningAnswers(jobs, cmd);
    } else {
      SucceedAnswers(jobs, cmd);
    }
  }

  lemma {:induction false} LifeStores(job: WorkerJob, owner: string, now: Time, until: Time, i: nat)
    requires Fresh(job) && job.queuedAt <= now < until && owner != "" && 1 <= i <= 4
    ensures At(Life(job, owner, now, until), i) == map[job.jobId := InLife(job, owner, now, until, i)]
    ensures ReplyOf(Life(job, owner, now, until), i - 1).One?
  {
    var run := Life(job, owner, now, until);
    Unfold(run, i - 1);
    hide At, InLife, Step, Fresh, Sound, Timely;
    if i == 1 {
      EmptyAtFirst(run);
      AddAnswers(map[], job);
      FirstInLife(job, owner, now, until);
    } else {
      LifeStores(job, owner, now, until, i - 1);
      LifeIsGood(job, owner, now, until, i - 1);
      LifeStep(job, owner, now, until, i - 1);
    }
  }

  lemma FirstInLife(job: WorkerJob, owner: string, now: Time, until: Time)
    ensures InLife(job, owner, now, until, 1) == job
  {
  }

  lemma LifeIsGood(job: WorkerJob, owner: string, now: Time, until: Time, i: nat)
    requires i <= 4 && job.queuedAt <= now
    ensures GoodStore(At(Life(job, owner, now, until), i), now)
  {
    ReachableIsGood(Life(job, owner, now, until), i, now);
  }

  /** Every new job can succeed: added by `now`, it can be leased, started and finished by any worker. */
  lemma JobCanSucceed(job: WorkerJob, owner: string, now: Time, until: Time)
    requires Fresh(job) && job.queuedAt <= now < until && owner != ""
    ensures var run := Life(job, owner, now, until);
      && (forall i: nat :: i < 4 ==> ReplyOf(run, i).One?)
      && job.jobId in At(run, 4) && At(run, 4)[job.jobId].phase.Succeeded?
      && At(run, 4)[job.jobId].resultRef == Some("result")
  {
    hide At, Fresh, Step;
    forall i: nat | i < 4 ensures ReplyOf(Life(job, owner, now, until), i).One? {
      LifeStores(job, owner, now, until, i + 1);
    }
    LifeStores(job, owner, now, until, 4);
  }
}
