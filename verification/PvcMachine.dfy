/** The downsize migration as a step machine: one program point per call of the agent, a choice of
    outcome at every call, and the cluster acting on its own between calls. */
module PvcMachine {
  import opened Options
  import opened PvcCluster

  /** What the agent captured before its first change. */
  datatype Job = Job(kind: Kind, pv: VolumeId, policy: Policy)

  datatype Point =
    | ScaleDown | WaitPods | PatchRetain | CreateScratch | CopyOut | InspectScratch | RepointWorkload
    | DeleteOriginal | WaitOriginal | CreateOriginal | CopyBack | InspectOriginal
    | ScaleUp | DeleteScratch | WaitScratch | DropVolume
    | UndoScratch | UndoPolicy | UndoScale
    | Done | RolledBack | Stuck

  /** `saved` is the replica count read by the first scale attempt. */
  datatype Config = Config(point: Point, s: State, saved: Option<nat>)

  function Saved(cfg: Config): nat {
    if cfg.saved.Some? then cfg.saved.value else 0
  }

  function OpAt(job: Job, cfg: Config): Op {
    match cfg.point
    case ScaleDown => Scale(0)
    case WaitPods => AwaitNoPods
    case PatchRetain => Patch(job.pv, Retain)
    case CreateScratch => Create(Scratch)
    case CopyOut => Copy(Original, Scratch)
    case InspectScratch => Inspect(Scratch)
    case RepointWorkload => Repoint(Scratch)
    case DeleteOriginal => DeleteClaim(Original)
    case WaitOriginal => AwaitGone(Original)
    case CreateOriginal => Create(Original)
    case CopyBack => Copy(Scratch, Original)
    case InspectOriginal => Inspect(Original)
    case ScaleUp => Scale(Saved(cfg))
    case DeleteScratch => DeleteClaim(Scratch)
    case WaitScratch => AwaitGone(Scratch)
    case DropVolume => DeleteVolume(job.pv)
    case UndoScratch => DeleteClaim(Scratch)
    case UndoPolicy => Patch(job.pv, job.policy)
    case UndoScale => Scale(Saved(cfg))
    case _ => Nothing
  }

  function AfterSuccess(job: Job, p: Point): Point {
    match p
    case ScaleDown => WaitPods
    case WaitPods => if job.kind.StatefulSet? && job.policy != Retain then PatchRetain else CreateScratch
    case PatchRetain => CreateScratch
    case CreateScratch => CopyOut
    case CopyOut => if job.kind.Deployment? then InspectScratch else DeleteOriginal
    case InspectScratch => RepointWorkload
    case RepointWorkload => ScaleUp
    case DeleteOriginal => WaitOriginal
    case WaitOriginal =>
      if job.kind.StatefulSet? then CreateOriginal
      else if job.policy == Retain then DropVolume else Done
    case CreateOriginal => CopyBack
    case CopyBack => InspectOriginal
    case InspectOriginal => ScaleUp
    case ScaleUp => if job.kind.Deployment? then DeleteOriginal else DeleteScratch
    case DeleteScratch => WaitScratch
    case WaitScratch => DropVolume
    case DropVolume => Done
    case UndoScratch => if job.kind.StatefulSet? && job.policy != Retain then UndoPolicy else UndoScale
    case UndoPolicy => UndoScale
    case UndoScale => RolledBack
    case _ => p
  }

  /** Where a failed call leads: back through the undo points, or to a stop past the point of no
      return. A failed undo call does not stop the undo; a failed volume clean-up is ignored. */
  function AfterFailure(job: Job, p: Point): Point {
    match p
    case ScaleDown => RolledBack
    case WaitPods => UndoScale
    case PatchRetain => UndoScale
    case CreateScratch => if job.kind.StatefulSet? && job.policy != Retain then UndoPolicy else UndoScale
    case CopyOut => UndoScratch
    case InspectScratch => UndoScratch
    case RepointWorkload => UndoScratch
    case DeleteOriginal => if job.kind.Deployment? then Stuck else UndoScratch
    case WaitOriginal => if job.kind.Deployment? then Stuck else UndoScratch
    case CreateOriginal => Stuck
    case CopyBack => Stuck
    case InspectOriginal => Stuck
    case ScaleUp => Stuck
    case DeleteScratch => Stuck
    case WaitScratch => Stuck
    case _ => AfterSuccess(job, p)
  }

  predicate Final(p: Point) {
    p.Done? || p.RolledBack? || p.Stuck?
  }

  predicate Undoing(p: Point) {
    p.UndoScratch? || p.UndoPolicy? || p.UndoScale?
  }

  /** One step of a run. `Conflict` is an update answered with a version conflict, which the agent
      retries; `Observe` is the read that precedes the first scale update. */
  datatype Label =
    | Env(action: EnvAction)
    | Observe
    | Succeed(kept: set<string>)
    | Fail(applied: bool, kept: set<string>)
    | Conflict(applied: bool)

  /** A call whose update is retried on conflict. */
  predicate Retried(op: Op) {
    op.Scale? || op.Repoint?
  }

  function Step(job: Job, cfg: Config, l: Label): Config {
    var op := OpAt(job, cfg);
    match l
    case Env(a) => cfg.(s := EnvApply(job.kind, cfg.s, a))
    case Observe =>
      if cfg.point.ScaleDown? && cfg.saved.None? then cfg.(saved := Some(cfg.s.replicas)) else cfg
    case Succeed(kept) =>
      if Final(cfg.point) || !CanSucceed(cfg.s, op) || (cfg.point.ScaleDown? && cfg.saved.None?) then cfg
      else cfg.(point := AfterSuccess(job, cfg.point), s := Effect(cfg.s, op, kept))
    case Fail(applied, kept) =>
      if Final(cfg.point) then cfg
      else cfg.(point := AfterFailure(job, cfg.point), s := FailureEffect(cfg.s, op, applied, kept))
    case Conflict(applied) =>
      if Retried(op) && !(cfg.point.ScaleDown? && cfg.saved.None?)
      then cfg.(s := FailureEffect(cfg.s, op, applied, {})) else cfg
  }

  /** The configuration a run of labels leads to. Every prefix of a run is a run. */
  function Exec(job: Job, start: Config, labels: seq<Label>): Config {
    if labels == [] then start
    else Step(job, Exec(job, start, labels[..|labels| - 1]), labels[|labels| - 1])
  }

  /** The cluster a validated downsize starts from: the claim is bound and not being deleted, its
      volume holds the workload's data, and the workload runs on it or has no pod. */
  ghost predicate Start(job: Job, cfg: Config) {
    var s := cfg.s;
    && cfg.point.ScaleDown? && cfg.saved.None?
    && s.claims == map[Original := Claim(job.pv, false)]
    && s.volumes.Keys == {job.pv}
    && s.volumes[job.pv] == Volume(job.policy, s.data)
    && s.template.Original?
    && job.pv < s.next
    && (s.mount.None? || s.mount == Some(job.pv))
  }

  lemma ExecAppend(job: Job, start: Config, labels: seq<Label>, l: Label)
    ensures Exec(job, start, labels + [l]) == Step(job, Exec(job, start, labels), l)
  {
    assert (labels + [l])[..|labels|] == labels;
  }
}
