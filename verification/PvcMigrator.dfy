/** The downsize as the agent runs it: sequential calls, local flags, and a deferred rollback that
    reads the flags. Every execution is shown to be a run of the step machine. */
module PvcMigrator {
  import opened Options
  import opened PvcCluster
  import opened PvcMachine
  import opened PvcSafety
  import opened PvcRollback
  import opened PvcOutcome
  import opened PvcFailure

  /** Asserting Demand(0) unfolds IsRun; elsewhere a run stays folded. */
  ghost predicate Demand(k: nat) {
    k <= k
  }

  /** `labels` is a run of the machine that leads to `cfg`. */
  ghost predicate IsRun(job: Job, start: Config, labels: seq<Label>, cfg: Config) {
    forall k: nat :: Demand(k) ==> Start(job, start) && Exec(job, start, labels) == cfg
  }

  lemma RunStep(job: Job, start: Config, labels: seq<Label>, cfg: Config, l: Label)
    requires IsRun(job, start, labels, cfg)
    ensures IsRun(job, start, labels + [l], Step(job, cfg, l))
  {
    assert Demand(0);
    ExecAppend(job, start, labels, l);
  }

  datatype Verdict = Written | Again | GaveUp

  class Migrator {
    const job: Job
    ghost const start: Config
    /** What the API server holds. */
    var cluster: State
    /** The run so far. */
    ghost var labels: seq<Label>

    /** Where the step machine stands after `labels`. */
    ghost var cfg: Config

    ghost predicate Valid()
      reads this
    {
      IsRun(job, start, labels, cfg) && cfg.s == cluster
    }

    ghost predicate At(p: Point)
      reads this
    {
      Valid() && cfg.point == p
    }

    constructor (job: Job, cluster: State)
      requires Start(job, Config(ScaleDown, cluster, None))
      ensures Valid() && this.job == job && this.cluster == cluster
      ensures start == cfg == Config(ScaleDown, cluster, None) && labels == []
    {
      this.job := job;
      this.start := Config(ScaleDown, cluster, None);
      this.cluster := cluster;
      this.labels := [];
      this.cfg := Config(ScaleDown, cluster, None);
    }

    ghost method Acted(a: EnvAction)
      requires IsRun(job, start, labels, cfg)
      modifies this`labels, this`cfg
      ensures IsRun(job, start, labels, cfg) && labels == old(labels) + [Env(a)]
      ensures cfg == old(cfg).(s := EnvApply(job.kind, old(cfg).s, a))
    {
      RunStep(job, start, labels, cfg, Env(a));
      labels, cfg := labels + [Env(a)], Step(job, cfg, Env(a));
    }

    ghost method Observed()
      requires IsRun(job, start, labels, cfg) && cfg.point.ScaleDown? && cfg.saved.None?
      modifies this`labels, this`cfg
      ensures IsRun(job, start, labels, cfg) && labels == old(labels) + [Observe]
      ensures cfg == old(cfg).(saved := Some(old(cfg).s.replicas))
    {
      RunStep(job, start, labels, cfg, Observe);
      labels, cfg := labels + [Observe], Step(job, cfg, Observe);
    }

    ghost method Succeeded(op: Op, kept: set<string>)
      requires IsRun(job, start, labels, cfg) && !Final(cfg.point) && OpAt(job, cfg) == op
      requires CanSucceed(cfg.s, op) && (cfg.point.ScaleDown? ==> cfg.saved.Some?)
      modifies this`labels, this`cfg
      ensures IsRun(job, start, labels, cfg) && labels == old(labels) + [Succeed(kept)]
      ensures cfg == Config(AfterSuccess(job, old(cfg).point), Effect(old(cfg).s, op, kept), old(cfg).saved)
    {
      RunStep(job, start, labels, cfg, Succeed(kept));
      labels, cfg := labels + [Succeed(kept)], Step(job, cfg, Succeed(kept));
    }

    ghost method Failed(op: Op, applied: bool, kept: set<string>)
      requires IsRun(job, start, labels, cfg) && !Final(cfg.point) && OpAt(job, cfg) == op
      modifies this`labels, this`cfg
      ensures IsRun(job, start, labels, cfg) && labels == old(labels) + [Fail(applied, kept)]
      ensures cfg == Config(AfterFailure(job, old(cfg).point), FailureEffect(old(cfg).s, op, applied, kept),
                            old(cfg).saved)
    {
      RunStep(job, start, labels, cfg, Fail(applied, kept));
      labels, cfg := labels + [Fail(applied, kept)], Step(job, cfg, Fail(applied, kept));
    }

    ghost method Conflicted(op: Op, applied: bool)
      requires IsRun(job, start, labels, cfg) && OpAt(job, cfg) == op && Retried(op)
      requires cfg.point.ScaleDown? ==> cfg.saved.Some?
      modifies this`labels, this`cfg
      ensures IsRun(job, start, labels, cfg) && labels == old(labels) + [Conflict(applied)]
      ensures cfg == old(cfg).(s := FailureEffect(old(cfg).s, op, applied, {}))
    {
      RunStep(job, start, labels, cfg, Conflict(applied));
      labels, cfg := labels + [Conflict(applied)], Step(job, cfg, Conflict(applied));
    }

    /** The cluster acts by itself, any number of times. */
    method Interfere()
      requires Valid()
      modifies this`cluster, this`labels, this`cfg
      ensures old(labels) <= labels && At(old(cfg).point) && cfg.saved == old(cfg).saved
    {
      var n: nat := *;
      while n > 0
        invariant old(labels) <= labels && At(old(cfg).point) && cfg.saved == old(cfg).saved
      {
        var a: EnvAction := *;
        cluster := EnvApply(job.kind, cluster, a);
        Acted(a);
        n := n - 1;
      }
    }

    /** One call that is not retried. */
    method Call(op: Op) returns (ok: bool)
      requires Valid() && !Final(cfg.point) && !cfg.point.ScaleDown? && OpAt(job, cfg) == op
      modifies this`cluster, this`labels, this`cfg
      ensures cfg.saved == old(cfg).saved
      ensures old(labels) <= labels
      ensures At(if ok then AfterSuccess(job, old(cfg).point) else AfterFailure(job, old(cfg).point))
    {
      Interfere();
      var answered: bool := *;
      var kept: set<string> := *;
      ok := answered && CanSucceed(cluster, op);
      if ok {
        cluster := Effect(cluster, op, kept);
        Succeeded(op, kept);
      } else {
        var applied: bool := *;
        cluster := FailureEffect(cluster, op, applied, kept);
        Failed(op, applied, kept);
      }
    }

    /** Polls until the awaited condition holds, a poll fails, or the deadline passes. */
    method Await(op: Op) returns (ok: bool)
      requires Valid() && !Final(cfg.point) && OpAt(job, cfg) == op && (op.AwaitNoPods? || op.AwaitGone?)
      modifies this`cluster, this`labels, this`cfg
      ensures cfg.saved == old(cfg).saved
      ensures old(labels) <= labels
      ensures At(if ok then AfterSuccess(job, old(cfg).point) else AfterFailure(job, old(cfg).point))
    {
      var polls: nat := *;
      while polls > 0
        invariant old(labels) <= labels && At(old(cfg).point) && cfg.saved == old(cfg).saved
      {
        Interfere();
        var answered: bool := *;
        if !answered { break; }
        if CanSucceed(cluster, op) {
          Succeeded(op, {});
          return true;
        }
        polls := polls - 1;
      }
      Failed(op, false, {});
      return false;
    }

    /** The update of a read-modify-update: done, failed for good, or answered with a conflict that may be
        retried. */
    method Update(op: Op, mayRetry: bool) returns (verdict: Verdict)
      requires Valid() && !Final(cfg.point) && OpAt(job, cfg) == op && Retried(op)
      requires cfg.point.ScaleDown? ==> cfg.saved.Some?
      modifies this`cluster, this`labels, this`cfg
      ensures old(labels) <= labels && cfg.saved == old(cfg).saved && (verdict.Again? ==> mayRetry)
      ensures At(match verdict
                 case Written => AfterSuccess(job, old(cfg).point)
                 case Again => old(cfg).point
                 case GaveUp => AfterFailure(job, old(cfg).point))
    {
      Interfere();
      var answered: bool := *;
      if answered {
        cluster := Effect(cluster, op, {});
        Succeeded(op, {});
        return Written;
      }
      var applied: bool, conflict: bool, cancelled: bool := *, *, *;
      cluster := FailureEffect(cluster, op, applied, {});
      if conflict && mayRetry && !cancelled {
        Conflicted(op, applied);
        return Again;
      }
      Failed(op, applied, {});
      return GaveUp;
    }

    /** Sets the replica count by read-modify-update with up to three attempts; `prior` is the count
        the first read saw. */
    method ScaleWorkload(target: nat) returns (ok: bool, prior: nat)
      requires Valid() && !Final(cfg.point) && OpAt(job, cfg) == Scale(target)
      requires cfg.point.ScaleDown? ==> cfg.saved.None?
      modifies this`cluster, this`labels, this`cfg
      ensures old(labels) <= labels
      ensures At(if ok then AfterSuccess(job, old(cfg).point) else AfterFailure(job, old(cfg).point))
      ensures !old(cfg).point.ScaleDown? ==> cfg.saved == old(cfg).saved
      ensures ok && old(cfg).point.ScaleDown? ==> cfg.saved == Some(prior)
    {
      ghost var down := cfg.point.ScaleDown?;
      prior := 0;
      var captured := false;
      var attempt := 0;
      while true
        invariant 0 <= attempt < 3
        invariant old(labels) <= labels && At(old(cfg).point) && OpAt(job, cfg) == Scale(target)
        invariant !down ==> cfg.saved == old(cfg).saved
        invariant down ==> cfg.saved == if captured then Some(prior) else None
        decreases 3 - attempt
      {
        Interfere();
        var read: bool := *;
        if !read {
          Failed(Scale(target), false, {});
          return false, 0;
        }
        if !captured {
          prior, captured := cluster.replicas, true;
          if down { Observed(); }
        }
        var verdict := Update(Scale(target), attempt < 2);
        if verdict != Again {
          return verdict == Written, prior;
        }
        attempt := attempt + 1;
      }
    }

    /** Points the workload's volume at the scratch claim, with up to five attempts. A reference
        that already names the scratch claim counts as done. */
    method RepointWorkload() returns (ok: bool)
      requires Valid() && cfg.point.RepointWorkload?
      modifies this`cluster, this`labels, this`cfg
      ensures cfg.saved == old(cfg).saved
      ensures old(labels) <= labels && At(if ok then ScaleUp else UndoScratch)
    {
      var attempt := 0;
      while true
        invariant 0 <= attempt < 5
        invariant old(labels) <= labels && At(Point.RepointWorkload) && cfg.saved == old(cfg).saved
        decreases 5 - attempt
      {
        Interfere();
        var read: bool := *;
        if !read {
          Failed(Repoint(Scratch), false, {});
          return false;
        }
        if cluster.template == Scratch {
          Succeeded(Repoint(Scratch), {});
          return true;
        }
        var verdict := Update(Repoint(Scratch), attempt < 4);
        if verdict != Again {
          return verdict == Written;
        }
        attempt := attempt + 1;
      }
    }

    /** Phase A: copy to a new claim. The flags say how far a failed migration came. */
    method DeploymentPhaseA() returns (ok: bool, oldReplicas: Option<nat>, newPVCCreated: bool)
      requires Valid() && job.kind.Deployment? && cfg.point.ScaleDown? && cfg.saved.None?
      modifies this`cluster, this`labels, this`cfg
      ensures At(if ok then Point.RepointWorkload else if newPVCCreated then UndoScratch
                              else if oldReplicas.Some? then UndoScale else RolledBack)
      ensures ok || newPVCCreated ==> oldReplicas.Some? && newPVCCreated
      ensures oldReplicas.Some? ==> cfg.saved == oldReplicas
    {
      ok, oldReplicas, newPVCCreated := false, None, false;
      var done, r := ScaleWorkload(0);
      if !done { return; }
      oldReplicas := Some(r);
      done := Await(AwaitNoPods);
      if !done { return; }
      done := Call(Create(Scratch));
      if !done { return; }
      newPVCCreated := true;
      done := Call(Copy(Original, Scratch));
      if !done { return; }
      ok := Call(Inspect(Scratch));
    }

    /** Phases B and C: repoint, scale up, delete the original. */
    method DeploymentPhaseBC(oldReplicas: nat) returns (ok: bool, deploymentUpdated: bool)
      requires Valid() && job.kind.Deployment? && cfg.point.RepointWorkload? && cfg.saved == Some(oldReplicas)
      modifies this`cluster, this`labels, this`cfg
      ensures At(if ok then Done else if deploymentUpdated then Stuck else UndoScratch)
      ensures !deploymentUpdated ==> !ok && cfg.saved == Some(oldReplicas)
    {
      ok, deploymentUpdated := false, false;
      var done := RepointWorkload();
      if !done { return; }
      deploymentUpdated := true;
      var r;
      done, r := ScaleWorkload(oldReplicas);
      if !done { return; }
      done := Call(DeleteClaim(Original));
      if !done { return; }
      done := Await(AwaitGone(Original));
      if !done { return; }
      if job.policy == Retain {
        done := Call(DeleteVolume(job.pv));
      }
      ok := true;
    }

    /** The phases, then the deferred rollback. */
    method DownsizeDeployment() returns (ok: bool)
      requires Valid() && job.kind.Deployment? && cfg.point.ScaleDown? && cfg.saved.None?
      modifies this`cluster, this`labels, this`cfg
      ensures Valid() && Final(cfg.point) && (ok <==> cfg.point.Done?)
      ensures DeploymentPromise(job, start, labels, cfg)
    {
      var deploymentUpdated := false;
      var oldReplicas, newPVCCreated;
      ok, oldReplicas, newPVCCreated := DeploymentPhaseA();
      if ok {
        ok, deploymentUpdated := DeploymentPhaseBC(oldReplicas.value);
      }
      if !ok && !deploymentUpdated {
        if newPVCCreated {
          var _ := Call(DeleteClaim(Scratch));
        }
        if oldReplicas.Some? {
          var _, _ := ScaleWorkload(oldReplicas.value);
        }
      }
      DeploymentTrace(job, start, labels, cfg);
    }

    /** Phase A: copy to scratch, with the volume on Retain. */
    method StatefulSetPhaseA()
      returns (ok: bool, oldReplicas: Option<nat>, reclaimPatched: bool, tempPVCCreated: bool)
      requires Valid() && job.kind.StatefulSet? && cfg.point.ScaleDown? && cfg.saved.None?
      modifies this`cluster, this`labels, this`cfg
      ensures At(if ok then DeleteOriginal else if tempPVCCreated then UndoScratch
                 else if reclaimPatched then UndoPolicy else if oldReplicas.Some? then UndoScale else RolledBack)
      ensures oldReplicas.Some? ==> cfg.saved == oldReplicas
      ensures ok ==> tempPVCCreated
      ensures tempPVCCreated ==> reclaimPatched == (job.policy != Retain)
      ensures tempPVCCreated || reclaimPatched ==> oldReplicas.Some?
    {
      ok, oldReplicas, reclaimPatched, tempPVCCreated := false, None, false, false;
      var done, r := ScaleWorkload(0);
      if !done { return; }
      oldReplicas := Some(r);
      done := Await(AwaitNoPods);
      if !done { return; }
      if job.policy != Retain {
        done := Call(Patch(job.pv, Retain));
        if !done { return; }
        reclaimPatched := true;
      }
      done := Call(Create(Scratch));
      if !done { return; }
      tempPVCCreated := true;
      ok := Call(Copy(Original, Scratch));
    }

    /** Phase B: delete and recreate the original, copy back, scale up. */
    method StatefulSetPhaseB(oldReplicas: nat) returns (ok: bool, originalPVCDeleted: bool)
      requires Valid() && job.kind.StatefulSet? && cfg.point.DeleteOriginal? && cfg.saved == Some(oldReplicas)
      modifies this`cluster, this`labels, this`cfg
      ensures At(if ok then DeleteScratch else if originalPVCDeleted then Stuck else UndoScratch)
      ensures !originalPVCDeleted ==> !ok && cfg.saved == Some(oldReplicas)
    {
      ok, originalPVCDeleted := false, false;
      var done := Call(DeleteClaim(Original));
      if !done { return; }
      done := Await(AwaitGone(Original));
      if !done { return; }
      originalPVCDeleted := true;
      done := Call(Create(Original));
      if !done { return; }
      done := Call(Copy(Scratch, Original));
      if !done { return; }
      done := Call(Inspect(Original));
      if !done { return; }
      var r;
      ok, r := ScaleWorkload(oldReplicas);
    }

    /** Phase C: delete the scratch claim and the orphaned volume. */
    method StatefulSetPhaseC() returns (ok: bool)
      requires Valid() && job.kind.StatefulSet? && cfg.point.DeleteScratch?
      modifies this`cluster, this`labels, this`cfg
      ensures At(if ok then Done else Stuck)
    {
      ok := Call(DeleteClaim(Scratch));
      if !ok { return; }
      ok := Await(AwaitGone(Scratch));
      if !ok { return; }
      var _ := Call(DeleteVolume(job.pv));
    }

    /** The deferred rollback, driven by the flags. */
    method UndoStatefulSet(oldReplicas: Option<nat>, reclaimPatched: bool, tempPVCCreated: bool)
      requires At(if tempPVCCreated then UndoScratch else if reclaimPatched then UndoPolicy
                  else if oldReplicas.Some? then UndoScale else RolledBack)
      requires job.kind.StatefulSet? && (oldReplicas.Some? ==> cfg.saved == oldReplicas)
      requires tempPVCCreated ==> reclaimPatched == (job.policy != Retain)
      requires tempPVCCreated || reclaimPatched ==> oldReplicas.Some?
      modifies this`cluster, this`labels, this`cfg
      ensures At(RolledBack)
    {
      if tempPVCCreated {
        var _ := Call(DeleteClaim(Scratch));
      }
      if reclaimPatched {
        var _ := Call(Patch(job.pv, job.policy));
      }
      if oldReplicas.Some? {
        var _, _ := ScaleWorkload(oldReplicas.value);
      }
    }

    /** The phases, then the deferred rollback. */
    method DownsizeStatefulSet() returns (ok: bool)
      requires Valid() && job.kind.StatefulSet? && cfg.point.ScaleDown? && cfg.saved.None?
      modifies this`cluster, this`labels, this`cfg
      ensures Valid() && Final(cfg.point) && (ok <==> cfg.point.Done?)
      ensures StatefulSetPromise(job, start, labels, cfg)
    {
      var originalPVCDeleted := false;
      var oldReplicas, reclaimPatched, tempPVCCreated;
      ok, oldReplicas, reclaimPatched, tempPVCCreated := StatefulSetPhaseA();
      if ok {
        ok, originalPVCDeleted := StatefulSetPhaseB(oldReplicas.value);
      }
      if ok {
        ok := StatefulSetPhaseC();
      }
      if !ok && !originalPVCDeleted {
        UndoStatefulSet(oldReplicas, reclaimPatched, tempPVCCreated);
      }
      StatefulSetTrace(job, start, labels, cfg);
    }
  }

  /** What the run of a Deployment downsize keeps at every moment, and restores on rollback. */
  ghost predicate DeploymentPromise(job: Job, start: Config, labels: seq<Label>, cfg: Config) {
    && (forall i :: 0 <= i <= |labels| ==> CopyExists(Exec(job, start, labels[..i]).s))
    && (cfg.point.RolledBack? && CleanRun(job, start, labels) ==> Restored(job, start, cfg.s))
    && (cfg.point.Done? ==> Succeeds(job, start, labels, cfg))
    && (cfg.point.RolledBack? || cfg.point.Stuck? ==> TakesBack(job, start, labels, cfg))
  }

  /** A downsize that succeeds made the planned calls in order and left the workload running as before. */
  ghost predicate Succeeds(job: Job, start: Config, labels: seq<Label>, cfg: Config) {
    Finished(job, start, cfg.s) && Followed(job, start.s.replicas, Succeeded(job, start, labels))
  }

  /** A downsize that fails took back what it had done, or was past the point of no return. */
  ghost predicate TakesBack(job: Job, start: Config, labels: seq<Label>, cfg: Config) {
    TurnedAround(job, start.s.replicas, cfg.point, Made(job, start, labels), TakenBack(job, start, labels))
  }

  /** The same for a StatefulSet downsize that is protected against an overdue deletion. */
  ghost predicate StatefulSetPromise(job: Job, start: Config, labels: seq<Label>, cfg: Config) {
    && (Protected(job, TimelyRun(job, start, labels), start.s) ==>
          forall i :: 0 <= i <= |labels| ==> CopyExists(Exec(job, start, labels[..i]).s))
    && (cfg.point.RolledBack? && CleanRun(job, start, labels) ==> Restored(job, start, cfg.s))
    && (cfg.point.Done? ==> Succeeds(job, start, labels, cfg))
    && (cfg.point.RolledBack? || cfg.point.Stuck? ==> TakesBack(job, start, labels, cfg))
  }

  lemma SuccessTrace(job: Job, start: Config, labels: seq<Label>, cfg: Config)
    requires IsRun(job, start, labels, cfg) && cfg.point.Done?
    ensures Succeeds(job, start, labels, cfg)
  {
    assert Demand(0);
    SuccessFinishes(job, start, labels);
    PlanIsFollowed(job, start, labels);
  }

  lemma FailureTrace(job: Job, start: Config, labels: seq<Label>, cfg: Config)
    requires IsRun(job, start, labels, cfg) && Final(cfg.point) && !cfg.point.Done?
    ensures TakesBack(job, start, labels, cfg)
  {
    assert Demand(0);
    FailureIsTakenBack(job, start, labels);
  }

  lemma DeploymentTrace(job: Job, start: Config, labels: seq<Label>, cfg: Config)
    requires job.kind.Deployment? && IsRun(job, start, labels, cfg)
    ensures DeploymentPromise(job, start, labels, cfg)
  {
    if cfg.point.Done? { SuccessTrace(job, start, labels, cfg); }
    if cfg.point.RolledBack? || cfg.point.Stuck? { FailureTrace(job, start, labels, cfg); }
    assert Demand(0);
    forall i | 0 <= i <= |labels|
      ensures CopyExists(Exec(job, start, labels[..i]).s)
    {
      DeploymentKeepsACopy(job, start, labels[..i]);
    }
    if cfg.point.RolledBack? && CleanRun(job, start, labels) {
      RollbackRestores(job, start, labels);
    }
  }

  lemma TimelyPrefix(job: Job, start: Config, labels: seq<Label>, i: nat)
    requires i <= |labels| && TimelyRun(job, start, labels)
    ensures TimelyRun(job, start, labels[..i])
  {
    forall j | 0 <= j < i
      ensures TimelyDelete(Exec(job, start, labels[..i][..j]), labels[..i][j])
    {
      assert labels[..i][..j] == labels[..j];
    }
  }

  lemma StatefulSetTrace(job: Job, start: Config, labels: seq<Label>, cfg: Config)
    requires job.kind.StatefulSet? && IsRun(job, start, labels, cfg)
    ensures StatefulSetPromise(job, start, labels, cfg)
  {
    if cfg.point.Done? { SuccessTrace(job, start, labels, cfg); }
    if cfg.point.RolledBack? || cfg.point.Stuck? { FailureTrace(job, start, labels, cfg); }
    assert Demand(0);
    var timely := TimelyRun(job, start, labels);
    if Protected(job, timely, start.s) {
      forall i | 0 <= i <= |labels|
        ensures CopyExists(Exec(job, start, labels[..i]).s)
      {
        if timely { TimelyPrefix(job, start, labels, i); }
        StatefulSetRun(job, timely, start, labels[..i]);
        StatefulSetInvKeepsACopy(job, timely, Exec(job, start, labels[..i]));
      }
    }
    if cfg.point.RolledBack? && CleanRun(job, start, labels) {
      RollbackRestores(job, start, labels);
    }
  }
}
