/** Whole runs of the store: soundness of every reachable job, and when operations can fail. */
module JobRuns {
  import opened Prelude
  import opened Ordering
  import opened Agents
  import opened JobStore
  import opened JobInvariants

  /** The store after a run of operations from the empty store. */
  ghost function Exec(run: seq<Command>): (jobs: Jobs)
    ensures WellKeyed(jobs)
  {
    if run == [] then map[] else
      var before := Exec(run[..|run| - 1]);
      StepMoves(before, run[|run| - 1]);
      Step(before, run[|run| - 1]).0
  }

  /** The store before operation `i`, equally after the first `i` operations. */
  ghost function At(run: seq<Command>, i: nat): (jobs: Jobs)
    requires i <= |run|
    ensures WellKeyed(jobs)
  {
    Exec(run[..i])
  }

  ghost function ReplyOf(run: seq<Command>, i: nat): Reply
    requires i < |run|
  {
    Step(At(run, i), run[i]).1
  }

  lemma Unfold(run: seq<Command>, i: nat)
    requires i < |run|
    ensures At(run, i + 1) == Step(At(run, i), run[i]).0
  {
    assert run[..i + 1][..|run[..i + 1]| - 1] == run[..i];
  }

  lemma EmptyAtFirst(run: seq<Command>)
    ensures At(run, 0) == map[]
  {
  }

  /** One step of a run, seen from one job. */
  lemma JobMoves(run: seq<Command>, i: nat, id: string)
    requires i < |run|
    ensures id in At(run, i) ==> id in At(run, i + 1) && Moved(run[i], At(run, i)[id], At(run, i + 1)[id])
    ensures id !in At(run, i) && id in At(run, i + 1) ==>
              run[i].Add? && At(run, i + 1)[id] == run[i].job && Fresh(run[i].job)
  {
    Unfold(run, i);
    StepMoves(At(run, i), run[i]);
    hide Moved, Fresh, Step;
  }

  lemma {:induction false} JobsStay(run: seq<Command>, i: nat, k: nat, id: string)
    requires i <= k <= |run| && id in At(run, i)
    ensures id in At(run, k)
    decreases k
  {
    if i < k {
      JobsStay(run, i, k - 1, id);
      JobMoves(run, k - 1, id);
    }
  }

  // Reachable jobs.

  lemma {:induction false} ReachableIsSound(run: seq<Command>, i: nat, id: string)
    requires i <= |run| && id in At(run, i)
    ensures Sound(At(run, i)[id])
    decreases i
  {
    if i > 0 {
      JobMoves(run, i - 1, id);
      if id in At(run, i - 1) {
        ReachableIsSound(run, i - 1, id);
        ApplyKeepsSound(run[i - 1], At(run, i - 1)[id], At(run, i)[id]);
      }
    }
  }

  /** Every job of every reachable store satisfies the table's CHECK constraints. */
  lemma ReachableSatisfiesTable(run: seq<Command>, id: string)
    requires id in Exec(run)
    ensures AgentRunChecks(Exec(run)[id])
  {
    assert run[..|run|] == run;
    ReachableIsSound(run, |run|, id);
    SoundSatisfiesTable(Exec(run)[id]);
  }

  /** Jobs of one tenant are untouched by every operation of another. */
  lemma TenantIsolation(run: seq<Command>, i: nat, id: string)
    requires i < |run| && id in At(run, i)
    requires run[i].Add? || run[i].tenant != At(run, i)[id].tenantId
    ensures id in At(run, i + 1) && At(run, i + 1)[id] == At(run, i)[id]
  {
    JobMoves(run, i, id);
  }

  // The clock.

  /** The instant an operation brings into the store: its own, or the queueing time of a new job. */
  function Stamp(cmd: Command): Time {
    if cmd.Add? then cmd.job.queuedAt else cmd.at
  }

  /** The clock never runs backwards and is never behind the queueing time of a job already added. */
  ghost predicate ClockAdvances(run: seq<Command>) {
    forall i, j :: 0 <= i < j < |run| && !run[j].Add? ==> Stamp(run[i]) <= run[j].at
  }

  lemma {:induction false} ReachableIsTimely(run: seq<Command>, i: nat, id: string, now: Time)
    requires i <= |run| && ClockAdvances(run) && id in At(run, i)
    requires forall k :: 0 <= k < i ==> Stamp(run[k]) <= now
    ensures Timely(At(run, i)[id], now)
    decreases i
  {
    if i > 0 {
      JobMoves(run, i - 1, id);
      if id in At(run, i - 1) {
        var seen := if run[i - 1].Add? then now else run[i - 1].at;
        ReachableIsTimely(run, i - 1, id, seen);
        if !run[i - 1].Add? { ApplyKeepsTimely(run[i - 1], At(run, i - 1)[id], At(run, i)[id]); }
      }
    }
  }

  /** The jobs are sound and nothing in them lies in the future of this clock reading. */
  ghost predicate GoodStore(jobs: Jobs, now: Time) {
    WellKeyed(jobs) && forall id :: id in jobs ==> Sound(jobs[id]) && Timely(jobs[id], now)
  }

  /** Every store a run can reach is good at a clock reading that no earlier operation exceeds. */
  lemma ReachableIsGood(run: seq<Command>, i: nat, now: Time)
    requires i <= |run| && ClockAdvances(run) && forall k :: 0 <= k < i ==> Stamp(run[k]) <= now
    ensures GoodStore(At(run, i), now)
  {
    forall id | id in At(run, i) ensures Sound(At(run, i)[id]) && Timely(At(run, i)[id], now) {
      ReachableIsSound(run, i, id);
      ReachableIsTimely(run, i, id, now);
    }
  }

  /** A clock reading: at `now` no operation before `i` has run later, and the clock has only advanced. */
  ghost predicate ReadsAt(run: seq<Command>, i: nat, now: Time)
    requires i <= |run|
  {
    ClockAdvances(run[..i]) && forall k :: 0 <= k < i ==> Stamp(run[k]) <= now
  }

  lemma GoodAt(run: seq<Command>, i: nat, now: Time)
    requires i <= |run| && ReadsAt(run, i, now)
    ensures GoodStore(At(run, i), now)
  {
    hide Exec, GoodStore;
    assert run[..i][..i] == run[..i];
    ReachableIsGood(run[..i], i, now);
    SamePrefix(run, i);
  }

  lemma SamePrefix(run: seq<Command>, i: nat)
    requires i <= |run|
    ensures At(run[..i], i) == At(run, i)
  {
    assert run[..i][..i] == run[..i];
  }

  /** The arguments of a lease request that are checked before the store is looked at. */
  predicate SaneLease(cmd: Command) {
    cmd.LeaseNext? && cmd.owner != "" && cmd.at < cmd.expiresAt && cmd.agingInterval > 0
  }

  predicate ResumesPaused(jobs: Jobs, cmd: Command) {
    && cmd.Resume? && cmd.jobId in jobs
    && jobs[cmd.jobId].tenantId == cmd.tenant && jobs[cmd.jobId].phase.Paused?
  }

  /** With an advancing clock no validator and no transition assertion ever fires; recovery, leasing and the
      resumption of a paused job always succeed. */
  lemma NoInternalFailureInRuns(run: seq<Command>, i: nat)
    requires i < |run| && ClockAdvances(run) && !run[i].Add? && UsableArguments(run[i])
    ensures ReplyOf(run, i).Rejected? ==> ReplyOf(run, i).error !in {ValidationError, InvalidTransition}
    ensures run[i].RecoverExpired? || SaneLease(run[i]) ==> !ReplyOf(run, i).Rejected?
    ensures ResumesPaused(At(run, i), run[i]) ==> !ReplyOf(run, i).Rejected?
  {
    var cmd, jobs := run[i], At(run, i);
    forall id | id in jobs && Selects(cmd, jobs[id])
      ensures !Internal(Apply(cmd, jobs[id]))
      ensures cmd.RecoverExpired? || cmd.LeaseNext? || (cmd.Resume? && jobs[id].phase.Paused?)
              ==> Apply(cmd, jobs[id]).Ok?
    {
      ReachableIsSound(run, i, id);
      ReachableIsTimely(run, i, id, cmd.at);
      NoInternalFailure(cmd, jobs[id]);
    }
    if cmd.RecoverExpired? {
      RecoveryFails(jobs, cmd.tenant, cmd.kind, cmd.at);
    } else if SaneLease(cmd) {
      var keys := LeaseKeys(jobs, cmd.tenant, cmd.kind, cmd.at, cmd.agingInterval);
      hide Apply, LeaseKeys;
      if keys != {} { LeaseHead(jobs, cmd); } else { QueueIs(keys); }
    } else {
      hide Apply;
    }
  }

  /** Without any clock assumption, a lease request on a reachable store is refused exactly when the job at the
      head of its queue is dated after the request; the job is then still there, blocking every job behind it. */
  lemma LeaseRefusedExactly(run: seq<Command>, i: nat)
    requires i < |run| && SaneLease(run[i])
    ensures var cmd := run[i];
            var queue := Arrange(KeyLeq, LeaseKeys(At(run, i), cmd.tenant, cmd.kind, cmd.at, cmd.agingInterval));
            && (ReplyOf(run, i).Rejected? <==> queue != [] && cmd.at < queue[0].queuedAt)
            && (ReplyOf(run, i).Rejected? ==> At(run, i + 1) == At(run, i))
            && (ReplyOf(run, i).Nothing? <==> queue == [])
  {
    var cmd, jobs := run[i], At(run, i);
    var keys := LeaseKeys(jobs, cmd.tenant, cmd.kind, cmd.at, cmd.agingInterval);
    Unfold(run, i);
    if keys != {} {
      LeaseHead(jobs, cmd);
      var head := Arrange(KeyLeq, keys)[0].id;
      ReachableIsSound(run, i, head);
      LeaseFailsExactly(cmd, jobs[head]);
      hide Apply, LeaseKeys;
    } else {
      QueueIs(keys);
    }
  }

  /** The clock assumption is needed: any new job dated in the future blocks its workers' leases at once. */
  lemma FutureDatedJobBlocks(job: WorkerJob, lease: Command)
    requires Fresh(job) && SaneLease(lease) && Waiting(job, lease.tenant, lease.kind) && lease.at < job.queuedAt
    ensures ReplyOf([Add(job), lease], 1) == Rejected(ValidationError)
  {
    var run := [Add(job), lease];
    FirstAdd(job, lease);
    hide At, Fresh, Arrange, KeyLeq, Apply, EffectiveLevel;
    var jobs := At(run, 1);
    assert run[1] == lease && job.jobId in jobs && jobs[job.jobId] == job;
    assert LeaseKey(job, lease.at, lease.agingInterval)
        in LeaseKeys(jobs, lease.tenant, lease.kind, lease.at, lease.agingInterval);
    LeaseHead(jobs, lease);
    FutureLeaseFails(lease, job);
  }

  lemma FutureLeaseFails(lease: Command, job: WorkerJob)
    requires lease.LeaseNext? && lease.at < job.queuedAt
    ensures Apply(lease, job) == Err(ValidationError)
  {
  }

  lemma FirstAdd(job: WorkerJob, next: Command)
    requires Fresh(job)
    ensures At([Add(job), next], 1) == map[job.jobId := job]
  {
    Unfold([Add(job), next], 0);
  }

  lemma LeaseAlone(job: WorkerJob, cmd: Command)
    requires SaneLease(cmd) && Waiting(job, cmd.tenant, cmd.kind)
    ensures Step(map[job.jobId := job], cmd) == Write(map[job.jobId := job], Apply(cmd, job))
  {
    var jobs := map[job.jobId := job];
    hide Apply, Arrange, KeyLeq, Waiting, EffectiveLevel;
    assert LeaseKey(job, cmd.at, cmd.agingInterval)
        in LeaseKeys(jobs, cmd.tenant, cmd.kind, cmd.at, cmd.agingInterval) by { assert job.jobId in jobs; }
    LeaseHead(jobs, cmd);
  }

  lemma RecoverAlone(job: WorkerJob, tenant: string, kind: WorkerKind, at: Time)
    requires Expired(job, tenant, kind, at)
    ensures var (after, reply) := Step(map[job.jobId := job], RecoverExpired(tenant, kind, at));
            if RecoverOne(job, at).Err? then reply.Rejected? && after == map[job.jobId := job]
            else !reply.Rejected? && after == map[job.jobId := RecoverOne(job, at).value]
  {
    var jobs := map[job.jobId := job];
    hide RecoverOne, Expired, Arrange, KeyLeq;
    assert job.jobId in jobs;
    RecoveryFails(jobs, tenant, kind, at);
    assert RecoverOne(job, at).Ok? ==>
        AllRecovered(jobs, tenant, kind, at) == map[job.jobId := RecoverOne(job, at).value];
  }

  // A run whose clock runs backwards, and the snapshots of its only job.

  function BackwardRun(job: WorkerJob): seq<Command> {
    var tenant, kind := job.tenantId, job.workerKind;
    [Add(job), LeaseNext(tenant, kind, "w", 80, 100, 60), MarkRunning(tenant, job.jobId, "w", 1, "c", 90),
     RecoverExpired(tenant, kind, 100), LeaseNext(tenant, kind, "w", 10, 20, 60), RecoverExpired(tenant, kind, 20)]
  }

  function LeasedAs(job: WorkerJob, at: Time, until: Time): WorkerJob {
    job.(phase := Leased, dispatchAttempt := job.dispatchAttempt + 1, leaseGeneration := job.leaseGeneration + 1,
         leaseOwner := Some("w"), leaseAcquiredAt := Some(at), leaseExpiresAt := Some(until))
  }

  function StartedAs(job: WorkerJob): WorkerJob {
    job.(phase := Running, checkpointRef := Some("c"), startedAt := Some(90))
  }

  function RequeuedAs(job: WorkerJob): WorkerJob {
    Unleased(job).(phase := Queued, recoveryCount := job.recoveryCount + 1)
  }

  /** The snapshot of the job before operation `i`, for `i` from 1 to 5. */
  function Snapshot(job: WorkerJob, i: nat): WorkerJob {
    if i <= 1 then job
    else if i == 2 then LeasedAs(job, 80, 100)
    else if i == 3 then StartedAs(LeasedAs(job, 80, 100))
    else if i == 4 then RequeuedAs(StartedAs(LeasedAs(job, 80, 100)))
    else LeasedAs(RequeuedAs(StartedAs(LeasedAs(job, 80, 100))), 10, 20)
  }

  /** A new job queued by 10 with a budget of two recoveries. */
  predicate TwoLives(job: WorkerJob) {
    Fresh(job) && job.queuedAt <= 10 && job.maxRecoveryAttempts == 2
  }

  lemma BackwardStep(job: WorkerJob, i: nat)
    requires TwoLives(job) && 1 <= i <= 4
    ensures Step(map[job.jobId := Snapshot(job, i)], BackwardRun(job)[i]).0 == map[job.jobId := Snapshot(job, i + 1)]
    ensures !Step(map[job.jobId := Snapshot(job, i)], BackwardRun(job)[i]).1.Rejected?
  {
    var cmd, before := BackwardRun(job)[i], Snapshot(job, i);
    BackwardMove(job, i);
    hide Apply, RecoverOne, StepLease, StepRecover, Fresh;
    if i == 1 || i == 4 {
      LeaseAlone(before, cmd);
    } else if i == 3 {
      RecoverAlone(before, job.tenantId, job.workerKind, 100);
    }
  }

  lemma BackwardMove(job: WorkerJob, i: nat)
    requires TwoLives(job) && 1 <= i <= 4
    ensures if i == 3 then RecoverOne(Snapshot(job, i), 100) == Ok(Snapshot(job, i + 1))
            else Apply(BackwardRun(job)[i], Snapshot(job, i)) == Ok(Snapshot(job, i + 1))
  {
  }

  lemma BackwardEnd(job: WorkerJob)
    requires TwoLives(job)
    ensures Step(map[job.jobId := Snapshot(job, 5)], BackwardRun(job)[5]).1.Rejected?
  {
    assert RecoverOne(Snapshot(job, 5), 20).Err?;
    RecoverAlone(Snapshot(job, 5), job.tenantId, job.workerKind, 20);
    hide RecoverOne, StepRecover, Fresh;
  }

  lemma {:induction false} BackwardStores(job: WorkerJob, i: nat)
    requires TwoLives(job) && 1 <= i <= 5
    ensures At(BackwardRun(job), i) == map[job.jobId := Snapshot(job, i)]
    ensures i < 5 ==> !ReplyOf(BackwardRun(job), i).Rejected?
  {
    var run := BackwardRun(job);
    if i == 1 { BackwardStart(job); } else { BackwardStores(job, i - 1); BackwardStep(job, i - 1); Unfold(run, i - 1); }
    hide BackwardRun, Snapshot, Step, At, TwoLives;
    if i < 5 { BackwardStep(job, i); }
  }

  lemma BackwardStart(job: WorkerJob)
    requires TwoLives(job)
    ensures At(BackwardRun(job), 1) == map[job.jobId := job] && !ReplyOf(BackwardRun(job), 0).Rejected?
  {
    Unfold(BackwardRun(job), 0);
  }

  /** The runs that refuse a recovery exist: a job with a budget of two recoveries is started at 90 and recovered at
      100; then the clock reads 10, it is leased until 20, and its last recovery at 20 would end it before its start. */
  lemma BackwardClockBlocksRecovery(job: WorkerJob)
    requires TwoLives(job)
    ensures forall i: nat :: i < 5 ==> !ReplyOf(BackwardRun(job), i).Rejected?
    ensures ReplyOf(BackwardRun(job), 5).Rejected?
  {
    forall i: nat | i < 5 ensures !ReplyOf(BackwardRun(job), i).Rejected? {
      if i == 0 { BackwardStart(job); } else { BackwardStores(job, i); }
    }
    BackwardStores(job, 5);
    BackwardEnd(job);
    hide BackwardRun, Snapshot, Step, At, TwoLives;
  }

  /** Likewise, recovery is refused, as a whole, exactly when an expired job is due its last recovery although it
      started after the instant of recovery. */
  lemma RecoveryRefusedExactly(run: seq<Command>, i: nat)
    requires i < |run| && run[i].RecoverExpired?
    ensures ReplyOf(run, i).Rejected? <==>
            exists id :: id in At(run, i) && Expired(At(run, i)[id], run[i].tenant, run[i].kind, run[i].at)
                         && At(run, i)[id].recoveryCount + 1 == At(run, i)[id].maxRecoveryAttempts
                         && At(run, i)[id].startedAt.Some? && run[i].at < At(run, i)[id].startedAt.value
  {
    var cmd, jobs := run[i], At(run, i);
    RecoveryFails(jobs, cmd.tenant, cmd.kind, cmd.at);
    forall id | id in jobs && Expired(jobs[id], cmd.tenant, cmd.kind, cmd.at)
      ensures RecoverOne(jobs[id], cmd.at).Err? <==>
              jobs[id].recoveryCount + 1 == jobs[id].maxRecoveryAttempts
              && jobs[id].startedAt.Some? && cmd.at < jobs[id].startedAt.value
    {
      ReachableIsSound(run, i, id);
      RecoveryFailsExactly(jobs[id], cmd.tenant, cmd.kind, cmd.at);
    }
    hide RecoverOne, StepRecover;
  }
}
