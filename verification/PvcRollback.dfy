/** What a rolled-back downsize restores, and when data is copied. */
module PvcRollback {
  import opened Options
  import opened PvcCluster
  import opened PvcMachine
  import opened PvcSafety

  /** Failed calls change nothing, except that a failed copy may leave files on the scratch volume;
      undo calls succeed; and the agent does not give up after an accepted deletion of the claim. */
  predicate CleanStep(job: Job, cfg: Config, l: Label) {
    && (l.Fail? ==> !Undoing(cfg.point) && !cfg.point.WaitOriginal? && (cfg.point.CopyOut? || !l.applied))
    && (l.Conflict? ==> !l.applied)
  }

  predicate CleanRun(job: Job, start: Config, labels: seq<Label>) {
    forall i :: 0 <= i < |labels| ==> CleanStep(job, Exec(job, start, labels[..i]), labels[i])
  }

  /** The policy the original volume has once the agent has patched it, if it patches at all. */
  function WorkingPolicy(job: Job): Policy {
    if job.kind.StatefulSet? then Retain else job.policy
  }

  predicate Untouched(job: Job, s: State, policy: Policy) {
    && s.template.Original? && Original in s.claims && s.claims[Original] == Claim(job.pv, false)
    && job.pv in s.volumes && s.volumes[job.pv].policy == policy
    && (Scratch in s.claims ==> s.claims[Scratch].volume != job.pv)
    && job.pv < s.next
  }

  /** The workload, the volume's policy and the claims are as they were before the downsize. */
  predicate Restored(job: Job, start: Config, s: State) {
    Untouched(job, s, job.policy) && s.replicas == start.s.replicas && !Live(s, Scratch)
  }

  predicate RollbackInv(job: Job, start: Config, cfg: Config) {
    var s := cfg.s;
    var saved := cfg.saved == Some(start.s.replicas);
    match cfg.point
    case ScaleDown => Restored(job, start, s) && Scratch !in s.claims && (cfg.saved.None? || saved)
    case WaitPods => Untouched(job, s, job.policy) && Scratch !in s.claims && saved
    case PatchRetain => job.kind.StatefulSet? && Untouched(job, s, job.policy) && Scratch !in s.claims && saved
    case CreateScratch => Untouched(job, s, WorkingPolicy(job)) && Scratch !in s.claims && saved
    case CopyOut | InspectScratch | RepointWorkload => Untouched(job, s, WorkingPolicy(job)) && saved
    case DeleteOriginal => job.kind.StatefulSet? ==> Untouched(job, s, WorkingPolicy(job)) && saved
    case UndoScratch => Untouched(job, s, WorkingPolicy(job)) && saved
    case UndoPolicy => Untouched(job, s, WorkingPolicy(job)) && saved && !Live(s, Scratch)
    case UndoScale => Untouched(job, s, job.policy) && saved && !Live(s, Scratch)
    case RolledBack => Restored(job, start, s)
    case _ => true
  }

  lemma RollbackEnv(job: Job, start: Config, cfg: Config, a: EnvAction)
    requires RollbackInv(job, start, cfg)
    ensures RollbackInv(job, start, Step(job, cfg, Env(a)))
  {
  }

  lemma RollbackSuccess(job: Job, start: Config, cfg: Config, l: Label)
    requires RollbackInv(job, start, cfg) && CleanStep(job, cfg, l) && l.Succeed?
    ensures RollbackInv(job, start, Step(job, cfg, l))
  {
  }

  lemma RollbackFailure(job: Job, start: Config, cfg: Config, l: Label)
    requires RollbackInv(job, start, cfg) && CleanStep(job, cfg, l) && l.Fail?
    ensures RollbackInv(job, start, Step(job, cfg, l))
  {
  }

  lemma RollbackRetry(job: Job, start: Config, cfg: Config, l: Label)
    requires RollbackInv(job, start, cfg) && CleanStep(job, cfg, l) && (l.Observe? || l.Conflict?)
    ensures RollbackInv(job, start, Step(job, cfg, l))
  {
  }

  lemma RollbackStep(job: Job, start: Config, cfg: Config, l: Label)
    requires RollbackInv(job, start, cfg) && CleanStep(job, cfg, l)
    ensures RollbackInv(job, start, Step(job, cfg, l))
  {
    match l
    case Env(a) => RollbackEnv(job, start, cfg, a);
    case Succeed(_) => RollbackSuccess(job, start, cfg, l);
    case Fail(_, _) => RollbackFailure(job, start, cfg, l);
    case _ => RollbackRetry(job, start, cfg, l);
  }

  lemma {:induction false} RollbackRun(job: Job, start: Config, labels: seq<Label>)
    requires Start(job, start) && CleanRun(job, start, labels)
    ensures RollbackInv(job, start, Exec(job, start, labels))
  {
    if labels != [] {
      var k := |labels| - 1;
      forall i | 0 <= i < k
        ensures CleanStep(job, Exec(job, start, labels[..k][..i]), labels[..k][i])
      {
        assert labels[..k][..i] == labels[..i];
      }
      RollbackRun(job, start, labels[..k]);
      var cfg := Exec(job, start, labels[..k]);
      RollbackStep(job, start, cfg, labels[k]);
    }
  }

  /** A downsize that fails before its point of no return and whose undo calls succeed restores the
      replica count, the reclaim policy, the claims and the workload's claim reference exactly, even
      when the scale-down was retried on conflicts. */
  lemma RollbackRestores(job: Job, start: Config, labels: seq<Label>)
    requires Start(job, start) && CleanRun(job, start, labels)
    requires Exec(job, start, labels).point.RolledBack?
    ensures Restored(job, start, Exec(job, start, labels).s)
  {
    RollbackRun(job, start, labels);
  }

  lemma {:induction false} QuietRun(job: Job, start: Config, labels: seq<Label>)
    requires Start(job, start)
    ensures QuietInv(job, Exec(job, start, labels))
  {
    if labels != [] {
      QuietRun(job, start, labels[..|labels| - 1]);
      QuietStep(job, Exec(job, start, labels[..|labels| - 1]), labels[|labels| - 1]);
    }
  }

  /** No data is copied, in either direction, unless the workload is scaled to zero and has no pod. */
  lemma CopiesOnlyWhenQuiet(job: Job, start: Config, labels: seq<Label>)
    requires Start(job, start)
    ensures var cfg := Exec(job, start, labels);
            OpAt(job, cfg).Copy? ==> cfg.s.replicas == 0 && cfg.s.mount.None?
  {
    QuietRun(job, start, labels);
  }

  /** The replica count the agent restores is the one from before the downsize, even when the
      scale-down was answered with conflicts after it had taken effect. */
  lemma {:induction false} SavedIsPrior(job: Job, start: Config, labels: seq<Label>)
    requires Start(job, start)
    ensures Prior(start.s.replicas, Exec(job, start, labels))
  {
    if labels != [] {
      var k := |labels| - 1;
      SavedIsPrior(job, start, labels[..k]);
      PriorStep(job, start.s.replicas, Exec(job, start, labels[..k]), labels[k]);
    }
  }

  /** The count is saved unless the agent has not read it yet, and is the one from the start. */
  predicate Prior(replicas: nat, cfg: Config) {
    && (cfg.saved.Some? ==> cfg.saved.value == replicas)
    && (cfg.saved.None? ==> (cfg.point.ScaleDown? || cfg.point.RolledBack?))
    && (cfg.saved.None? && cfg.point.ScaleDown? ==> cfg.s.replicas == replicas)
  }

  lemma PriorStep(job: Job, replicas: nat, cfg: Config, l: Label)
    requires Prior(replicas, cfg)
    ensures Prior(replicas, Step(job, cfg, l))
  {
  }

  predicate UpOntoACopy(cfg: Config) {
    && (cfg.point.ScaleUp? ==> Holds(cfg.s, cfg.s.template))
    && (cfg.point.UndoScale? && Live(cfg.s, cfg.s.template) ==> Holds(cfg.s, cfg.s.template))
  }

  lemma DeploymentUp(job: Job, cfg: Config)
    requires DeploymentInv(job, cfg)
    ensures UpOntoACopy(cfg)
  {
  }

  lemma StatefulSetUp(job: Job, cfg: Config)
    requires StatefulSetInv(job, true, cfg)
    ensures UpOntoACopy(cfg)
  {
  }

  /** The agent scales the workload up only onto a claim that holds a complete copy. During an undo
      the workload may name a claim that is being deleted, on which no pod can start. */
  lemma ScaledUpOntoACopy(job: Job, start: Config, labels: seq<Label>)
    requires Start(job, start) && (job.kind.StatefulSet? ==> TimelyRun(job, start, labels))
    ensures UpOntoACopy(Exec(job, start, labels))
  {
    var cfg := Exec(job, start, labels);
    if job.kind.StatefulSet? {
      StatefulSetRun(job, true, start, labels);
      StatefulSetUp(job, cfg);
    } else {
      DeploymentRun(job, start, labels);
      DeploymentUp(job, cfg);
    }
  }

  // ---------------------------------------------------------------- the claims afterwards

  /** Once the cluster has finished the deletion of the temporary claim, a clean rollback has restored the
      claims exactly. */
  lemma RollbackRestoresClaims(job: Job, start: Config, labels: seq<Label>)
    requires Start(job, start) && CleanRun(job, start, labels) && Exec(job, start, labels).point.RolledBack?
    ensures Exec(job, start, labels + [Env(Finalize(Scratch))]).s.claims == start.s.claims
  {
    RollbackRestores(job, start, labels);
    ExecAppend(job, start, labels, Env(Finalize(Scratch)));
    CleanMounts(job, start, labels);
    MountsOriginal(job, Exec(job, start, labels).s);
  }

  lemma CleanMounts(job: Job, start: Config, labels: seq<Label>)
    requires Start(job, start) && CleanRun(job, start, labels)
    ensures MountsTemplate(Exec(job, start, labels).s)
  {
    if job.kind.StatefulSet? {
      CleanIsTimely(job, start, labels);
      StatefulSetRun(job, true, start, labels);
    } else {
      DeploymentRun(job, start, labels);
    }
  }

  /** A clean run leaves no deletion behind. */
  lemma CleanIsTimely(job: Job, start: Config, labels: seq<Label>)
    requires CleanRun(job, start, labels)
    ensures TimelyRun(job, start, labels)
  {
    forall i | 0 <= i < |labels|
      ensures TimelyDelete(Exec(job, start, labels[..i]), labels[i])
    {
      assert CleanStep(job, Exec(job, start, labels[..i]), labels[i]);
    }
  }

  lemma MountsOriginal(job: Job, s: State)
    requires Untouched(job, s, job.policy) && MountsTemplate(s) && !Live(s, Scratch)
    ensures EnvApply(job.kind, s, Finalize(Scratch)).claims == map[Original := Claim(job.pv, false)]
  {
    var n := EnvApply(job.kind, s, Finalize(Scratch));
    forall c | c in n.claims
      ensures c == Original
    {
      match c case Original => case Scratch =>
    }
  }
}
