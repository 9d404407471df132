/** What every run of the downsize keeps, whatever fails and however the cluster interleaves. */
module PvcSafety {
  import opened Options
  import opened PvcCluster
  import opened PvcMachine

  /** A claim that is not being deleted and whose volume holds a complete copy. */
  predicate Holds(s: State, c: ClaimName) {
    Live(s, c) && Complete(s, s.claims[c].volume)
  }

  predicate Idle(s: State) {
    s.replicas == 0 && s.mount.None?
  }

  /** Volume identities are below the counter, and no two claims share a volume. */
  predicate Sane(s: State) {
    && (Original in s.claims ==> s.claims[Original].volume < s.next)
    && (Scratch in s.claims ==> s.claims[Scratch].volume < s.next)
    && (forall v :: v in s.volumes ==> v < s.next)
    && (Original in s.claims && Scratch in s.claims ==> s.claims[Original].volume != s.claims[Scratch].volume)
  }

  /** Pods only ever run on the claim the workload names, and that claim is not being deleted. */
  predicate MountsTemplate(s: State) {
    s.mount.Some? ==> Live(s, s.template) && s.mount.value == s.claims[s.template].volume
  }

  // ---------------------------------------------------------------- quiescence

  /** The points between the end of the pod wait and the first scale-up. */
  predicate Quiet(p: Point) {
    match p
    case PatchRetain | CreateScratch | CopyOut | InspectScratch | RepointWorkload => true
    case CreateOriginal | CopyBack | InspectOriginal => true
    case UndoScratch | UndoPolicy => true
    case _ => false
  }

  predicate QuietInv(job: Job, cfg: Config) {
    && (Quiet(cfg.point) ==> Idle(cfg.s))
    && (cfg.point.WaitPods? ==> cfg.s.replicas == 0)
    && (job.kind.StatefulSet? && (cfg.point.DeleteOriginal? || cfg.point.WaitOriginal?) ==> Idle(cfg.s))
  }

  lemma QuietStep(job: Job, cfg: Config, l: Label)
    requires QuietInv(job, cfg)
    ensures QuietInv(job, Step(job, cfg, l))
  {
  }

  // ---------------------------------------------------------------- Deployment

  predicate DeploymentInv(job: Job, cfg: Config) {
    var s := cfg.s;
    && Sane(s) && MountsTemplate(s)
    && (s.mount.Some? ==> Complete(s, s.mount.value))
    && match cfg.point
       case ScaleDown | WaitPods => s.template.Original? && Holds(s, Original) && Scratch !in s.claims
       case CreateScratch => s.template.Original? && Holds(s, Original) && Scratch !in s.claims
       case CopyOut =>
         && s.template.Original? && Holds(s, Original)
         && Live(s, Scratch) && s.claims[Scratch].volume in s.volumes
         && s.volumes[s.claims[Scratch].volume].files == map[]
       case InspectScratch => s.template.Original? && Holds(s, Original) && Holds(s, Scratch)
       case RepointWorkload => Holds(s, Original) && Holds(s, Scratch)
       case ScaleUp | DeleteOriginal | WaitOriginal | DropVolume | Done | Stuck =>
         && s.template.Scratch? && Holds(s, Scratch)
         && s.claims[Scratch].volume != job.pv
       case UndoScratch | UndoScale | RolledBack =>
         && Live(s, Original)
         && (if s.template.Original? then Holds(s, Original)
             else if Live(s, Scratch) then
               Holds(s, Scratch) && (cfg.point.UndoScratch? ==> Holds(s, Original))
             else Holds(s, Original))
       case _ => false
  }
  /** The original volume keeps its identity until the claim over it is deleted. */
  predicate OriginalVolume(job: Job, cfg: Config) {
    match cfg.point
    case ScaleDown | WaitPods | CreateScratch | CopyOut | InspectScratch | RepointWorkload =>
      Original in cfg.s.claims && cfg.s.claims[Original].volume == job.pv
    case _ => true
  }

  /** The cluster starts or stops pods. */
  lemma DeploymentPods(job: Job, cfg: Config, a: EnvAction)
    requires job.kind.Deployment? && QuietInv(job, cfg) && DeploymentInv(job, cfg) && OriginalVolume(job, cfg)
    requires a.StartPods? || a.StopPods?
    ensures var n := Step(job, cfg, Env(a)); DeploymentInv(job, n) && OriginalVolume(job, n)
  {
  }

  lemma DeploymentWrites(job: Job, cfg: Config, a: EnvAction)
    requires job.kind.Deployment? && QuietInv(job, cfg) && DeploymentInv(job, cfg) && OriginalVolume(job, cfg)
    requires a.Write?
    ensures var n := Step(job, cfg, Env(a)); DeploymentInv(job, n) && OriginalVolume(job, n)
  {
  }

  lemma DeploymentFinalizes(job: Job, cfg: Config, a: EnvAction)
    requires job.kind.Deployment? && QuietInv(job, cfg) && DeploymentInv(job, cfg) && OriginalVolume(job, cfg)
    requires a.Finalize?
    ensures var n := Step(job, cfg, Env(a)); DeploymentInv(job, n) && OriginalVolume(job, n)
  {
  }

  /** A Deployment's claim is not created by the cluster. */
  lemma DeploymentReclaims(job: Job, cfg: Config, a: EnvAction)
    requires job.kind.Deployment? && QuietInv(job, cfg) && DeploymentInv(job, cfg) && OriginalVolume(job, cfg)
    requires a.Reclaim? || a.FillTemplate?
    ensures var n := Step(job, cfg, Env(a)); DeploymentInv(job, n) && OriginalVolume(job, n)
  {
  }

  lemma DeploymentEnv(job: Job, cfg: Config, a: EnvAction)
    requires job.kind.Deployment? && QuietInv(job, cfg) && DeploymentInv(job, cfg) && OriginalVolume(job, cfg)
    ensures var n := Step(job, cfg, Env(a)); DeploymentInv(job, n) && OriginalVolume(job, n)
  {
    match a
    case StartPods | StopPods => DeploymentPods(job, cfg, a);
    case Write(_) => DeploymentWrites(job, cfg, a);
    case Finalize(_) => DeploymentFinalizes(job, cfg, a);
    case _ => DeploymentReclaims(job, cfg, a);
  }

  /** A quiet copy onto an empty volume makes that volume complete when the source is. */
  lemma CopyIsComplete(s: State, src: ClaimName, dst: ClaimName, kept: set<string>)
    requires Sane(s) && s.mount.None? && src != dst
    requires Holds(s, src) && Live(s, dst) && s.claims[dst].volume in s.volumes
    requires s.volumes[s.claims[dst].volume].files == map[]
    ensures Holds(Effect(s, Copy(src, dst), kept), src) && Holds(Effect(s, Copy(src, dst), kept), dst)
  {
    var from := s.volumes[s.claims[src].volume].files;
    assert map[] + Kept(from, from.Keys) == from;
  }

  predicate BeforeCopy(p: Point) {
    p.ScaleDown? || p.WaitPods? || p.PatchRetain? || p.CreateScratch? || p.CopyOut?
  }

  lemma DeploymentPrepares(job: Job, cfg: Config, l: Label)
    requires job.kind.Deployment? && QuietInv(job, cfg) && DeploymentInv(job, cfg) && OriginalVolume(job, cfg)
    requires l.Succeed? && BeforeCopy(cfg.point)
    ensures var n := Step(job, cfg, l); DeploymentInv(job, n) && OriginalVolume(job, n)
  {
    if cfg.point.CopyOut? {
      CopyIsComplete(cfg.s, Original, Scratch, l.kept);
    }
  }

  lemma DeploymentUnprepared(job: Job, cfg: Config, l: Label)
    requires job.kind.Deployment? && QuietInv(job, cfg) && DeploymentInv(job, cfg) && OriginalVolume(job, cfg)
    requires l.Fail? && BeforeCopy(cfg.point)
    ensures var n := Step(job, cfg, l); DeploymentInv(job, n) && OriginalVolume(job, n)
  {
  }

  lemma DeploymentSwitch(job: Job, cfg: Config, l: Label)
    requires job.kind.Deployment? && QuietInv(job, cfg) && DeploymentInv(job, cfg) && OriginalVolume(job, cfg)
    requires l.Succeed? && (cfg.point.InspectScratch? || cfg.point.RepointWorkload?)
    ensures var n := Step(job, cfg, l); DeploymentInv(job, n) && OriginalVolume(job, n)
  {
  }

  lemma DeploymentFinish(job: Job, cfg: Config, l: Label)
    requires job.kind.Deployment? && QuietInv(job, cfg) && DeploymentInv(job, cfg) && OriginalVolume(job, cfg)
    requires l.Succeed? && !BeforeCopy(cfg.point) && !Undoing(cfg.point)
    requires !cfg.point.InspectScratch? && !cfg.point.RepointWorkload?
    ensures var n := Step(job, cfg, l); DeploymentInv(job, n) && OriginalVolume(job, n)
  {
  }

  lemma DeploymentAbort(job: Job, cfg: Config, l: Label)
    requires job.kind.Deployment? && QuietInv(job, cfg) && DeploymentInv(job, cfg) && OriginalVolume(job, cfg)
    requires l.Fail? && !BeforeCopy(cfg.point) && !Undoing(cfg.point)
    ensures var n := Step(job, cfg, l); DeploymentInv(job, n) && OriginalVolume(job, n)
  {
  }

  lemma DeploymentUndo(job: Job, cfg: Config, l: Label)
    requires job.kind.Deployment? && QuietInv(job, cfg) && DeploymentInv(job, cfg) && OriginalVolume(job, cfg)
    requires (l.Succeed? || l.Fail?) && Undoing(cfg.point)
    ensures var n := Step(job, cfg, l); DeploymentInv(job, n) && OriginalVolume(job, n)
  {
    if cfg.point.UndoScratch? { DeploymentUndoScratch(job, cfg, l); } else { DeploymentUndoScale(job, cfg, l); }
  }

  lemma DeploymentUndoScratch(job: Job, cfg: Config, l: Label)
    requires job.kind.Deployment? && QuietInv(job, cfg) && DeploymentInv(job, cfg) && OriginalVolume(job, cfg)
    requires (l.Succeed? || l.Fail?) && cfg.point.UndoScratch?
    ensures var n := Step(job, cfg, l); DeploymentInv(job, n) && OriginalVolume(job, n)
  {
  }

  lemma DeploymentUndoScale(job: Job, cfg: Config, l: Label)
    requires job.kind.Deployment? && QuietInv(job, cfg) && DeploymentInv(job, cfg) && OriginalVolume(job, cfg)
    requires (l.Succeed? || l.Fail?) && (cfg.point.UndoPolicy? || cfg.point.UndoScale?)
    ensures var n := Step(job, cfg, l); DeploymentInv(job, n) && OriginalVolume(job, n)
  {
  }

  lemma DeploymentRetry(job: Job, cfg: Config, l: Label)
    requires job.kind.Deployment? && QuietInv(job, cfg) && DeploymentInv(job, cfg) && OriginalVolume(job, cfg)
    requires l.Observe? || l.Conflict?
    ensures var n := Step(job, cfg, l); DeploymentInv(job, n) && OriginalVolume(job, n)
  {
  }

  lemma DeploymentStep(job: Job, cfg: Config, l: Label)
    requires job.kind.Deployment? && QuietInv(job, cfg) && DeploymentInv(job, cfg) && OriginalVolume(job, cfg)
    ensures var n := Step(job, cfg, l); QuietInv(job, n) && DeploymentInv(job, n) && OriginalVolume(job, n)
  {
    QuietStep(job, cfg, l);
    match l
    case Env(a) => DeploymentEnv(job, cfg, a);
    case Observe | Conflict(_) => DeploymentRetry(job, cfg, l);
    case Succeed(_) | Fail(_, _) =>
      if BeforeCopy(cfg.point) && l.Succeed? { DeploymentPrepares(job, cfg, l); }
      else if BeforeCopy(cfg.point) { DeploymentUnprepared(job, cfg, l); }
      else if Undoing(cfg.point) { DeploymentUndo(job, cfg, l); }
      else if l.Fail? { DeploymentAbort(job, cfg, l); }
      else if cfg.point.InspectScratch? || cfg.point.RepointWorkload? { DeploymentSwitch(job, cfg, l); }
      else { DeploymentFinish(job, cfg, l); }
  }

  lemma {:induction false} DeploymentRun(job: Job, start: Config, labels: seq<Label>)
    requires job.kind.Deployment? && Start(job, start)
    ensures var n := Exec(job, start, labels); QuietInv(job, n) && DeploymentInv(job, n) && OriginalVolume(job, n)
  {
    if labels != [] {
      DeploymentRun(job, start, labels[..|labels| - 1]);
      DeploymentStep(job, Exec(job, start, labels[..|labels| - 1]), labels[|labels| - 1]);
    }
  }

  /** Deployment downsize: in every reachable state a complete copy exists, even when failed calls
      took effect on the server; and pods only ever run on a volume that is complete. */
  lemma DeploymentKeepsACopy(job: Job, start: Config, labels: seq<Label>)
    requires job.kind.Deployment? && Start(job, start)
    ensures var s := Exec(job, start, labels).s;
            CopyExists(s) && (s.mount.Some? ==> Complete(s, s.mount.value))
  {
    DeploymentRun(job, start, labels);
    var s := Exec(job, start, labels).s;
    var c := if Holds(s, Original) then Original else Scratch;
    assert Complete(s, s.claims[c].volume);
  }

  // ---------------------------------------------------------------- StatefulSet

  /** A complete copy on a Retain volume that the undo of the reclaim policy does not touch. */
  ghost predicate Haven(job: Job, s: State) {
    exists v :: Complete(s, v) && s.volumes[v].policy == Retain && (v != job.pv || job.policy == Retain)
  }

  /** The original volume is complete and is kept even without a claim. */
  predicate Retained(job: Job, s: State) {
    Complete(s, job.pv) && s.volumes[job.pv].policy == Retain
  }

  /** The scratch claim is a complete copy on a volume of its own, with the class's policy. */
  predicate ScratchCopy(job: Job, s: State) {
    && Holds(s, Scratch) && s.claims[Scratch].volume != job.pv
    && s.volumes[s.claims[Scratch].volume].policy == s.classPolicy
  }

  /** The claim is fresh: its volume is its own and empty, with the class's policy. */
  predicate FreshClaim(job: Job, s: State, c: ClaimName) {
    && Live(s, c) && s.claims[c].volume != job.pv
    && s.claims[c].volume in s.volumes
    && s.volumes[s.claims[c].volume] == Volume(s.classPolicy, map[])
  }

  /** `timely` runs are those in which deleting the original claim is either refused without
      effect or completes; see TimelyDelete. */
  ghost predicate StatefulSetInv(job: Job, timely: bool, cfg: Config) {
    var s := cfg.s;
    && Sane(s) && MountsTemplate(s) && s.template.Original?
    && job.pv < s.next
    && match cfg.point
       case ScaleDown | WaitPods | PatchRetain =>
         && Holds(s, Original) && s.claims[Original].volume == job.pv && Scratch !in s.claims
         && (job.policy == Retain ==> s.volumes[job.pv].policy == Retain)
       case CreateScratch =>
         Holds(s, Original) && s.claims[Original].volume == job.pv && Retained(job, s) && Scratch !in s.claims
       case CopyOut =>
         Holds(s, Original) && s.claims[Original].volume == job.pv && Retained(job, s) && FreshClaim(job, s, Scratch)
       case DeleteOriginal =>
         Holds(s, Original) && s.claims[Original].volume == job.pv && Retained(job, s) && ScratchCopy(job, s)
       case WaitOriginal =>
         && (Original in s.claims ==> s.claims[Original] == Claim(job.pv, true))
         && Retained(job, s) && ScratchCopy(job, s)
       case CreateOriginal => Original !in s.claims && Retained(job, s) && ScratchCopy(job, s)
       case CopyBack => Retained(job, s) && ScratchCopy(job, s) && FreshClaim(job, s, Original)
       case InspectOriginal => Holds(s, Original) && s.claims[Original].volume != job.pv
       case ScaleUp | DeleteScratch | WaitScratch | DropVolume | Done =>
         Holds(s, Original) && s.claims[Original].volume != job.pv
       case UndoScratch | UndoPolicy | UndoScale | RolledBack =>
         Holds(s, Original) || (!timely && Haven(job, s))
       case Stuck =>
         Holds(s, Original) || (Idle(s) && Retained(job, s))
       case _ => false
  }

  /** Some one thing makes the StatefulSet migration safe: the deletion completes in time, the
      volume was on Retain already, or the storage class retains the scratch volume. */
  predicate Protected(job: Job, timely: bool, s: State) {
    timely || job.policy == Retain || s.classPolicy == Retain
  }

  /** The step does not leave an accepted deletion of the original claim behind: a failed delete
      had no effect, and the wait after an accepted delete does not fail. */
  predicate TimelyDelete(cfg: Config, l: Label) {
    && (cfg.point.DeleteOriginal? && l.Fail? ==> !l.applied)
    && (cfg.point.WaitOriginal? ==> !l.Fail?)
  }

  /** The volume a Haven rests on. */
  ghost function HavenVolume(job: Job, s: State): (v: VolumeId)
    requires Haven(job, s)
    ensures Complete(s, v) && s.volumes[v].policy == Retain && (v != job.pv || job.policy == Retain)
  {
    var v :| Complete(s, v) && s.volumes[v].policy == Retain && (v != job.pv || job.policy == Retain);
    v
  }

  /** The cluster never destroys the last complete copy once it is claimed or on Retain. */
  lemma HavenEnv(job: Job, s: State, a: EnvAction)
    requires Sane(s) && MountsTemplate(s) && s.template.Original?
    requires Holds(s, Original) || Haven(job, s)
    ensures var n := EnvApply(StatefulSet, s, a); Holds(n, Original) || Haven(job, n)
  {
    var n := EnvApply(StatefulSet, s, a);
    if !Holds(n, Original) {
      assert !Holds(s, Original);
      assert Complete(n, HavenVolume(job, s));
    }
  }

  predicate AtUndo(p: Point) {
    Undoing(p) || p.RolledBack?
  }

  lemma EnvKeepsShape(s: State, a: EnvAction)
    requires Sane(s) && MountsTemplate(s) && s.template.Original?
    ensures var n := EnvApply(StatefulSet, s, a);
            Sane(n) && MountsTemplate(n) && n.template.Original? && s.next <= n.next
  {
  }

  /** Without a Haven, the claim itself is safe from the cluster. */
  lemma HoldsEnv(s: State, a: EnvAction)
    requires Sane(s) && MountsTemplate(s) && s.template.Original? && Holds(s, Original)
    ensures Holds(EnvApply(StatefulSet, s, a), Original)
  {
  }

  lemma StatefulSetEnvUndo(job: Job, timely: bool, cfg: Config, a: EnvAction)
    requires job.kind.StatefulSet? && QuietInv(job, cfg) && StatefulSetInv(job, timely, cfg)
    requires AtUndo(cfg.point)
    ensures StatefulSetInv(job, timely, Step(job, cfg, Env(a)))
  {
    EnvKeepsShape(cfg.s, a);
    if timely { HoldsEnv(cfg.s, a); } else { HavenEnv(job, cfg.s, a); }
  }

  lemma StatefulSetEnvBefore(job: Job, timely: bool, cfg: Config, a: EnvAction)
    requires job.kind.StatefulSet? && QuietInv(job, cfg) && StatefulSetInv(job, timely, cfg)
    requires BeforeCopy(cfg.point) || cfg.point.DeleteOriginal? || cfg.point.WaitOriginal?
    ensures StatefulSetInv(job, timely, Step(job, cfg, Env(a)))
  {
  }

  /** While the recreated claim is filled, and when that got stuck. */
  lemma StatefulSetEnvRefill(job: Job, timely: bool, cfg: Config, a: EnvAction)
    requires job.kind.StatefulSet? && QuietInv(job, cfg) && StatefulSetInv(job, timely, cfg)
    requires cfg.point.CreateOriginal? || cfg.point.CopyBack? || cfg.point.Stuck?
    ensures StatefulSetInv(job, timely, Step(job, cfg, Env(a)))
  {
  }

  lemma StatefulSetEnvAfter(job: Job, timely: bool, cfg: Config, a: EnvAction)
    requires job.kind.StatefulSet? && QuietInv(job, cfg) && StatefulSetInv(job, timely, cfg)
    requires OnNewVolume(cfg.point) || cfg.point.Done?
    ensures StatefulSetInv(job, timely, Step(job, cfg, Env(a)))
  {
  }

  /** The recreated claim holds a complete copy. */
  predicate OnNewVolume(p: Point) {
    p.InspectOriginal? || p.ScaleUp? || p.DeleteScratch? || p.WaitScratch? || p.DropVolume?
  }

  predicate AfterDelete(p: Point) {
    p.CreateOriginal? || p.CopyBack? || OnNewVolume(p)
  }

  lemma StatefulSetPrepares(job: Job, timely: bool, cfg: Config, l: Label)
    requires job.kind.StatefulSet? && QuietInv(job, cfg) && StatefulSetInv(job, timely, cfg)
    requires l.Succeed? && BeforeCopy(cfg.point)
    ensures StatefulSetInv(job, timely, Step(job, cfg, l))
  {
    if cfg.point.CopyOut? {
      CopyIsComplete(cfg.s, Original, Scratch, l.kept);
    }
  }

  lemma StatefulSetUnprepared(job: Job, timely: bool, cfg: Config, l: Label)
    requires job.kind.StatefulSet? && QuietInv(job, cfg) && StatefulSetInv(job, timely, cfg)
    requires l.Fail? && BeforeCopy(cfg.point)
    ensures StatefulSetInv(job, timely, Step(job, cfg, l))
  {
  }

  lemma StatefulSetDelete(job: Job, timely: bool, cfg: Config, l: Label)
    requires job.kind.StatefulSet? && QuietInv(job, cfg) && StatefulSetInv(job, timely, cfg)
    requires Protected(job, timely, cfg.s) && (timely ==> TimelyDelete(cfg, l))
    requires (l.Succeed? || l.Fail?) && (cfg.point.DeleteOriginal? || cfg.point.WaitOriginal?)
    ensures StatefulSetInv(job, timely, Step(job, cfg, l))
  {
    var n := Step(job, cfg, l);
    if n.point.UndoScratch? && !timely {
      assert Complete(n.s, if job.policy == Retain then job.pv else cfg.s.claims[Scratch].volume);
    }
  }

  lemma StatefulSetRefill(job: Job, timely: bool, cfg: Config, l: Label)
    requires job.kind.StatefulSet? && QuietInv(job, cfg) && StatefulSetInv(job, timely, cfg)
    requires l.Succeed? && (cfg.point.CreateOriginal? || cfg.point.CopyBack?)
    ensures StatefulSetInv(job, timely, Step(job, cfg, l))
  {
    if cfg.point.CopyBack? {
      CopyIsComplete(cfg.s, Scratch, Original, l.kept);
    }
  }

  lemma StatefulSetRefillFails(job: Job, timely: bool, cfg: Config, l: Label)
    requires job.kind.StatefulSet? && QuietInv(job, cfg) && StatefulSetInv(job, timely, cfg)
    requires l.Fail? && (cfg.point.CreateOriginal? || cfg.point.CopyBack?)
    ensures StatefulSetInv(job, timely, Step(job, cfg, l))
  {
  }

  lemma StatefulSetFinish(job: Job, timely: bool, cfg: Config, l: Label)
    requires job.kind.StatefulSet? && QuietInv(job, cfg) && StatefulSetInv(job, timely, cfg)
    requires l.Succeed? && OnNewVolume(cfg.point)
    ensures StatefulSetInv(job, timely, Step(job, cfg, l))
  {
  }

  lemma StatefulSetFinishFails(job: Job, timely: bool, cfg: Config, l: Label)
    requires job.kind.StatefulSet? && QuietInv(job, cfg) && StatefulSetInv(job, timely, cfg)
    requires l.Fail? && OnNewVolume(cfg.point)
    ensures StatefulSetInv(job, timely, Step(job, cfg, l))
  {
  }

  /** No undo call destroys the copy the undo relies on. */
  lemma UndoEffect(job: Job, s: State, op: Op, kept: set<string>)
    requires Sane(s) && MountsTemplate(s) && s.template.Original?
    requires Holds(s, Original) || Haven(job, s)
    requires op == DeleteClaim(Scratch) || op == Patch(job.pv, job.policy) || op.Scale?
    ensures var n := Effect(s, op, kept);
            && Sane(n) && MountsTemplate(n) && n.template.Original?
            && (Holds(s, Original) ==> Holds(n, Original))
            && (Holds(n, Original) || Haven(job, n))
  {
    var n := Effect(s, op, kept);
    if !Holds(s, Original) {
      assert Complete(n, HavenVolume(job, s));
    }
  }

  lemma StatefulSetUndo(job: Job, timely: bool, cfg: Config, l: Label)
    requires job.kind.StatefulSet? && QuietInv(job, cfg) && StatefulSetInv(job, timely, cfg)
    requires (l.Succeed? || l.Fail?) && Undoing(cfg.point)
    ensures StatefulSetInv(job, timely, Step(job, cfg, l))
  {
    UndoEffect(job, cfg.s, OpAt(job, cfg), l.kept);
  }

  lemma StatefulSetRetry(job: Job, timely: bool, cfg: Config, l: Label)
    requires job.kind.StatefulSet? && QuietInv(job, cfg) && StatefulSetInv(job, timely, cfg)
    requires l.Observe? || l.Conflict?
    ensures StatefulSetInv(job, timely, Step(job, cfg, l))
  {
  }

  lemma StatefulSetStep(job: Job, timely: bool, cfg: Config, l: Label)
    requires job.kind.StatefulSet? && QuietInv(job, cfg) && StatefulSetInv(job, timely, cfg)
    requires Protected(job, timely, cfg.s) && (timely ==> TimelyDelete(cfg, l))
    ensures var n := Step(job, cfg, l);
            QuietInv(job, n) && StatefulSetInv(job, timely, n) && Protected(job, timely, n.s)
  {
    QuietStep(job, cfg, l);
    ClassPolicyFixed(job, cfg, l);
    match l
    case Env(a) =>
      if AtUndo(cfg.point) { StatefulSetEnvUndo(job, timely, cfg, a); }
      else if OnNewVolume(cfg.point) || cfg.point.Done? { StatefulSetEnvAfter(job, timely, cfg, a); }
      else if AfterDelete(cfg.point) || cfg.point.Stuck? { StatefulSetEnvRefill(job, timely, cfg, a); }
      else { StatefulSetEnvBefore(job, timely, cfg, a); }
    case Observe | Conflict(_) => StatefulSetRetry(job, timely, cfg, l);
    case Succeed(_) | Fail(_, _) =>
      if BeforeCopy(cfg.point) && l.Succeed? { StatefulSetPrepares(job, timely, cfg, l); }
      else if BeforeCopy(cfg.point) { StatefulSetUnprepared(job, timely, cfg, l); }
      else if Undoing(cfg.point) { StatefulSetUndo(job, timely, cfg, l); }
      else if OnNewVolume(cfg.point) && l.Succeed? { StatefulSetFinish(job, timely, cfg, l); }
      else if OnNewVolume(cfg.point) { StatefulSetFinishFails(job, timely, cfg, l); }
      else if AfterDelete(cfg.point) && l.Succeed? { StatefulSetRefill(job, timely, cfg, l); }
      else if AfterDelete(cfg.point) { StatefulSetRefillFails(job, timely, cfg, l); }
      else if !Final(cfg.point) { StatefulSetDelete(job, timely, cfg, l); }
  }

  lemma ClassPolicyFixed(job: Job, cfg: Config, l: Label)
    ensures Step(job, cfg, l).s.classPolicy == cfg.s.classPolicy
  {
  }

  /** Every step of the run satisfies TimelyDelete. */
  predicate TimelyRun(job: Job, start: Config, labels: seq<Label>) {
    forall i :: 0 <= i < |labels| ==> TimelyDelete(Exec(job, start, labels[..i]), labels[i])
  }

  lemma {:induction false} StatefulSetRun(job: Job, timely: bool, start: Config, labels: seq<Label>)
    requires job.kind.StatefulSet? && Start(job, start) && Protected(job, timely, start.s)
    requires timely ==> TimelyRun(job, start, labels)
    ensures var n := Exec(job, start, labels);
            QuietInv(job, n) && StatefulSetInv(job, timely, n) && Protected(job, timely, n.s)
  {
    if labels != [] {
      var k := |labels| - 1;
      if timely {
        forall i | 0 <= i < k
          ensures TimelyDelete(Exec(job, start, labels[..k][..i]), labels[..k][i])
        {
          assert labels[..k][..i] == labels[..i];
        }
      }
      StatefulSetRun(job, timely, start, labels[..k]);
      StatefulSetStep(job, timely, Exec(job, start, labels[..k]), labels[k]);
    }
  }

  lemma StatefulSetInvKeepsACopy(job: Job, timely: bool, cfg: Config)
    requires StatefulSetInv(job, timely, cfg)
    ensures CopyExists(cfg.s)
  {
    if Holds(cfg.s, Original) {
      assert Complete(cfg.s, cfg.s.claims[Original].volume);
    } else if AtUndo(cfg.point) {
      assert Complete(cfg.s, HavenVolume(job, cfg.s));
    } else {
      assert Complete(cfg.s, job.pv);
    }
  }

  /** StatefulSet downsize, any reclaim policy: as long as the deletion of the original claim is
      either refused without effect or completes before the wait gives up, a complete copy exists
      in every reachable state, and pods only ever run on a complete volume. */
  lemma StatefulSetKeepsACopyWhenTimely(job: Job, start: Config, labels: seq<Label>)
    requires job.kind.StatefulSet? && Start(job, start) && TimelyRun(job, start, labels)
    ensures var s := Exec(job, start, labels).s;
            CopyExists(s) && (s.mount.Some? ==> Complete(s, s.mount.value))
  {
    StatefulSetRun(job, true, start, labels);
    StatefulSetInvKeepsACopy(job, true, Exec(job, start, labels));
  }
}
