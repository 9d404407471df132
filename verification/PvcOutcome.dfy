/** What a downsize does on its way, and what it leaves when it succeeds. */
module PvcOutcome {
  import opened Options
  import opened PvcCluster
  import opened PvcMachine
  import opened PvcSafety
  import opened PvcRollback
  import opened PvcLoss

  // ---------------------------------------------------------------- the calls, in order

  /** The calls of a downsize that nothing disturbs. */
  function Plan(job: Job, replicas: nat): seq<Op> {
    match job.kind
    case Deployment =>
      [Scale(0), AwaitNoPods,
       Create(Scratch), Copy(Original, Scratch), Inspect(Scratch),
       Repoint(Scratch), Scale(replicas),
       DeleteClaim(Original), AwaitGone(Original)]
      + if job.policy == Retain then [DeleteVolume(job.pv)] else []
    case StatefulSet =>
      [Scale(0), AwaitNoPods]
      + (if job.policy != Retain then [Patch(job.pv, Retain)] else [])
      + [Create(Scratch), Copy(Original, Scratch),
         DeleteClaim(Original), AwaitGone(Original),
         Create(Original), Copy(Scratch, Original), Inspect(Original),
         Scale(replicas),
         DeleteClaim(Scratch), AwaitGone(Scratch), DeleteVolume(job.pv)]
  }

  /** The calls that succeeded, in order. */
  function Succeeded(job: Job, start: Config, labels: seq<Label>): seq<Op> {
    if labels == [] then []
    else
      var k := |labels| - 1;
      var cfg := Exec(job, start, labels[..k]);
      Succeeded(job, start, labels[..k]) + Added(job, cfg, labels[k])
  }

  /** The call that a step completes, if it completes one. */
  function Added(job: Job, cfg: Config, l: Label): seq<Op> {
    if l.Succeed? && Step(job, cfg, l).point != cfg.point then [OpAt(job, cfg)] else []
  }

  /** No failure has turned the migration around or stopped it. */
  predicate Forward(p: Point) {
    !Undoing(p) && !p.RolledBack? && !p.Stuck?
  }

  /** How many calls are behind a point. */
  function Behind(job: Job, p: Point): nat {
    var patch := if job.policy != Retain then 1 else 0;
    match p
    case ScaleDown => 0
    case WaitPods => 1
    case PatchRetain => 2
    case CreateScratch => if job.kind.Deployment? then 2 else 2 + patch
    case CopyOut => if job.kind.Deployment? then 3 else 3 + patch
    case InspectScratch => 4
    case RepointWorkload => 5
    case ScaleUp => if job.kind.Deployment? then 6 else 9 + patch
    case DeleteOriginal => if job.kind.Deployment? then 7 else 4 + patch
    case WaitOriginal => if job.kind.Deployment? then 8 else 5 + patch
    case CreateOriginal => 6 + patch
    case CopyBack => 7 + patch
    case InspectOriginal => 8 + patch
    case DeleteScratch => 10 + patch
    case WaitScratch => 11 + patch
    case DropVolume => if job.kind.Deployment? then 9 else 12 + patch
    case _ => 0
  }

  /** The points a kind of workload passes through on its way. */
  predicate OnTheWay(job: Job, p: Point) {
    match p
    case ScaleDown | WaitPods | CreateScratch | CopyOut | ScaleUp | DeleteOriginal | WaitOriginal => true
    case PatchRetain => job.kind.StatefulSet? && job.policy != Retain
    case InspectScratch | RepointWorkload => job.kind.Deployment?
    case CreateOriginal | CopyBack | InspectOriginal | DeleteScratch | WaitScratch => job.kind.StatefulSet?
    case DropVolume => job.kind.StatefulSet? || job.policy == Retain
    case _ => false
  }

  /** A plan with its clean-up of the volume possibly failed. */
  predicate Followed(job: Job, replicas: nat, done: seq<Op>) {
    var plan := Plan(job, replicas);
    done == plan || (plan[|plan| - 1].DeleteVolume? && done == plan[..|plan| - 1])
  }

  predicate PlanInv(job: Job, replicas: nat, p: Point, done: seq<Op>) {
    && (p.Done? ==> Followed(job, replicas, done))
    && (Forward(p) && !p.Done? ==>
          && OnTheWay(job, p) && Behind(job, p) < |Plan(job, replicas)|
          && done == Plan(job, replicas)[..Behind(job, p)])
  }

  /** The call at a point is the next one of the plan. */
  lemma NextOfPlan(job: Job, replicas: nat, cfg: Config)
    requires OnTheWay(job, cfg.point) && (cfg.point.ScaleUp? ==> cfg.saved == Some(replicas))
    ensures Behind(job, cfg.point) < |Plan(job, replicas)|
    ensures OpAt(job, cfg) == Plan(job, replicas)[Behind(job, cfg.point)]
  {
  }

  lemma AfterNext(job: Job, replicas: nat, p: Point)
    requires OnTheWay(job, p)
    ensures var n := AfterSuccess(job, p);
            if n.Done? then Behind(job, p) + 1 == |Plan(job, replicas)|
            else OnTheWay(job, n) && Behind(job, n) == Behind(job, p) + 1
  {
  }

  /** A failure ends the way, except that of the last clean-up. */
  lemma AfterFailing(job: Job, replicas: nat, p: Point)
    requires OnTheWay(job, p)
    ensures var n := AfterFailure(job, p);
            Forward(n) ==> n.Done? && Behind(job, p) + 1 == |Plan(job, replicas)|
                           && Plan(job, replicas)[Behind(job, p)].DeleteVolume?
  {
  }

  lemma PlanAdvances(job: Job, replicas: nat, p: Point, done: seq<Op>, op: Op)
    requires PlanInv(job, replicas, p, done) && OnTheWay(job, p) && op == Plan(job, replicas)[Behind(job, p)]
    ensures PlanInv(job, replicas, AfterSuccess(job, p), done + [op])
  {
    AfterNext(job, replicas, p);
    TakeOne(Plan(job, replicas), Behind(job, p));
  }

  lemma TakeOne(plan: seq<Op>, k: nat)
    requires k < |plan|
    ensures plan[..k] + [plan[k]] == plan[..k + 1] && plan[..|plan|] == plan
  {
  }

  lemma PlanBreaksOff(job: Job, replicas: nat, p: Point, done: seq<Op>)
    requires PlanInv(job, replicas, p, done) && OnTheWay(job, p)
    ensures PlanInv(job, replicas, AfterFailure(job, p), done)
  {
    AfterFailing(job, replicas, p);
  }

  /** A call can only advance, break off, or leave the point as it is. */
  lemma PointStep(job: Job, cfg: Config, l: Label)
    ensures var p := Step(job, cfg, l).point;
            || p == cfg.point
            || (l.Succeed? && p == AfterSuccess(job, cfg.point))
            || (l.Fail? && p == AfterFailure(job, cfg.point))
  {
  }

  /** What turned around or stopped stays so. */
  lemma NotForward(job: Job, p: Point)
    requires !Forward(p) || p.Done?
    ensures (p.Done? || !Forward(AfterSuccess(job, p))) && (p.Done? || !Forward(AfterFailure(job, p)))
    ensures p.Done? ==> AfterSuccess(job, p) == p && AfterFailure(job, p) == p
  {
  }

  lemma PlanStep(job: Job, replicas: nat, cfg: Config, l: Label, done: seq<Op>)
    requires PlanInv(job, replicas, cfg.point, done) && Prior(replicas, cfg)
    ensures PlanInv(job, replicas, Step(job, cfg, l).point, done + Added(job, cfg, l))
  {
    PointStep(job, cfg, l);
    assert done + [] == done;
    if !Forward(cfg.point) || cfg.point.Done? {
      NotForward(job, cfg.point);
    } else if Step(job, cfg, l).point != cfg.point {
      NextOfPlan(job, replicas, cfg);
      if l.Succeed? {
        PlanAdvances(job, replicas, cfg.point, done, OpAt(job, cfg));
      } else {
        PlanBreaksOff(job, replicas, cfg.point, done);
      }
    }
  }

  lemma {:induction false} PlanRun(job: Job, start: Config, labels: seq<Label>)
    requires Start(job, start)
    ensures PlanInv(job, start.s.replicas, Exec(job, start, labels).point, Succeeded(job, start, labels))
  {
    if labels != [] {
      var k := |labels| - 1;
      PlanRun(job, start, labels[..k]);
      SavedIsPrior(job, start, labels[..k]);
      PlanStep(job, start.s.replicas, Exec(job, start, labels[..k]), labels[k], Succeeded(job, start, labels[..k]));
    }
  }

  /** A downsize that succeeds has made exactly the planned calls, in the planned order, up to the clean-up
      of the volume, whose failure is ignored: in particular it deletes the original claim only after the
      copy, the configuration check and, for a Deployment, the repoint. */
  lemma PlanIsFollowed(job: Job, start: Config, labels: seq<Label>)
    requires Start(job, start) && Exec(job, start, labels).point.Done?
    ensures Followed(job, start.s.replicas, Succeeded(job, start, labels))
  {
    PlanRun(job, start, labels);
  }

  // ---------------------------------------------------------------- what success leaves

  /** The workload runs as before on its new claim, which holds a complete copy on a volume of its own; the
      other claim is gone. */
  predicate Finished(job: Job, start: Config, s: State) {
    && s.replicas == start.s.replicas
    && s.template == (if job.kind.Deployment? then Scratch else Original)
    && Holds(s, s.template) && s.claims[s.template].volume != job.pv
    && (if job.kind.Deployment? then Original else Scratch) !in s.claims
  }

  /** Replicas, and which claim is gone, once the workload is scaled up. */
  predicate UpAgain(job: Job, replicas: nat, cfg: Config) {
    && (cfg.point.Done? || cfg.point.DropVolume? ==>
          cfg.s.replicas == replicas && (if job.kind.Deployment? then Original else Scratch) !in cfg.s.claims
          && cfg.s.template == (if job.kind.Deployment? then Scratch else Original))
    && (cfg.point.DeleteScratch? || cfg.point.WaitScratch? ==>
          job.kind.StatefulSet? && cfg.s.replicas == replicas && cfg.s.template.Original?)
    && (job.kind.Deployment? && (cfg.point.DeleteOriginal? || cfg.point.WaitOriginal?) ==>
          cfg.s.replicas == replicas && cfg.s.template.Scratch?)
    && (job.kind.Deployment? && cfg.point.ScaleUp? ==> cfg.s.template.Scratch?)
    && (job.kind.StatefulSet? ==> cfg.s.template.Original?)
    && (Forward(cfg.point) && !cfg.point.Done? ==> OnTheWay(job, cfg.point))
  }

  lemma UpAgainCall(job: Job, replicas: nat, cfg: Config, l: Label)
    requires UpAgain(job, replicas, cfg) && Prior(replicas, cfg) && !l.Env?
    ensures UpAgain(job, replicas, Step(job, cfg, l))
  {
  }

  lemma UpAgainEnv(job: Job, replicas: nat, cfg: Config, a: EnvAction)
    requires UpAgain(job, replicas, cfg)
    ensures UpAgain(job, replicas, Step(job, cfg, Env(a)))
  {
  }

  lemma {:induction false} UpAgainRun(job: Job, start: Config, labels: seq<Label>)
    requires Start(job, start)
    ensures UpAgain(job, start.s.replicas, Exec(job, start, labels))
  {
    if labels != [] {
      var k := |labels| - 1;
      UpAgainRun(job, start, labels[..k]);
      SavedIsPrior(job, start, labels[..k]);
      var cfg := Exec(job, start, labels[..k]);
      if labels[k].Env? { UpAgainEnv(job, start.s.replicas, cfg, labels[k].action); }
      else { UpAgainCall(job, start.s.replicas, cfg, labels[k]); }
    }
  }

  lemma ForwardStep(job: Job, cfg: Config, l: Label)
    requires job.kind.StatefulSet? && Forward(Step(job, cfg, l).point)
    ensures Forward(cfg.point) && TimelyDelete(cfg, l)
  {
  }

  /** A StatefulSet downsize that was never turned around had no overdue deletion. */
  lemma {:induction false} ForwardIsTimely(job: Job, start: Config, labels: seq<Label>)
    requires job.kind.StatefulSet? && Forward(Exec(job, start, labels).point)
    ensures TimelyRun(job, start, labels)
  {
    if labels != [] {
      var k := |labels| - 1;
      ForwardStep(job, Exec(job, start, labels[..k]), labels[k]);
      ForwardIsTimely(job, start, labels[..k]);
      TimelyAppend(job, start, labels[..k], labels[k]);
      assert labels[..k] + [labels[k]] == labels;
    }
  }

  lemma TimelyAppend(job: Job, start: Config, labels: seq<Label>, l: Label)
    requires TimelyRun(job, start, labels) && TimelyDelete(Exec(job, start, labels), l)
    ensures TimelyRun(job, start, labels + [l])
  {
    var more := labels + [l];
    forall i | 0 <= i < |more|
      ensures TimelyDelete(Exec(job, start, more[..i]), more[i])
    {
      assert more[..i] == labels[..i];
      if i == |labels| { assert labels[..i] == labels; }
    }
  }

  /** The workload's claim holds a complete copy. */
  lemma DoneHolds(job: Job, start: Config, labels: seq<Label>)
    requires Start(job, start) && Exec(job, start, labels).point.Done?
    ensures var s := Exec(job, start, labels).s;
            var c := if job.kind.Deployment? then Scratch else Original;
            Holds(s, c) && s.claims[c].volume != job.pv
  {
    if job.kind.StatefulSet? {
      ForwardIsTimely(job, start, labels);
      StatefulSetRun(job, true, start, labels);
    } else {
      DeploymentRun(job, start, labels);
    }
  }

  /** For every run that succeeds, whatever happened meanwhile: the workload has its replicas back and names
      a live claim with a complete copy, and the claim it does not need is gone. */
  lemma SuccessFinishes(job: Job, start: Config, labels: seq<Label>)
    requires Start(job, start) && Exec(job, start, labels).point.Done?
    ensures Finished(job, start, Exec(job, start, labels).s)
  {
    UpAgainRun(job, start, labels);
    DoneHolds(job, start, labels);
  }

  // ---------------------------------------------------------------- success is possible

  /** Brings the workload down and waits for its pods. */
  lemma ReachQuiet(job: Job, start: Config) returns (c: Config)
    requires Start(job, start)
    ensures Reachable(job, start, c) && c.saved == Some(start.s.replicas)
    ensures c.point == AfterSuccess(job, WaitPods) && c.s == start.s.(replicas := 0, mount := None)
  {
    assert Exec(job, start, []) == start;
    c := Act(job, start, start, StopPods);
    Extend(job, start, c, Observe);
    c := Step(job, c, Observe);
    c := Advance(job, start, c);
    c := Advance(job, start, c);
  }

  /** Both claims and both volumes are there, and no pod. */
  predicate TwoVolumes(job: Job, start: Config, s: State, originalGoing: bool) {
    && job.pv < start.s.next && s.mount.None?
    && s.claims == map[Original := Claim(job.pv, originalGoing), Scratch := Claim(start.s.next, false)]
    && s.volumes.Keys == {job.pv, start.s.next}
  }

  lemma ReachTwo(job: Job, start: Config) returns (c: Config)
    requires job.kind.Deployment? && Start(job, start)
    ensures Reachable(job, start, c) && c.saved.Some? && c.point.InspectScratch? && TwoVolumes(job, start, c.s, false)
  {
    c := ReachQuiet(job, start);
    c := Advance(job, start, c);
    c := Advance(job, start, c);
  }

  lemma ReachSwitched(job: Job, start: Config) returns (c: Config)
    requires job.kind.Deployment? && Start(job, start)
    ensures Reachable(job, start, c) && c.saved.Some? && c.point.DeleteOriginal? && TwoVolumes(job, start, c.s, false)
  {
    c := ReachTwo(job, start);
    c := Advance(job, start, c);
    c := Advance(job, start, c);
    c := Advance(job, start, c);
  }

  lemma ReachGone(job: Job, start: Config) returns (c: Config)
    requires job.kind.Deployment? && Start(job, start)
    ensures Reachable(job, start, c) && c.saved.Some? && c.point.WaitOriginal? && Original !in c.s.claims
  {
    c := ReachSwitched(job, start);
    c := Advance(job, start, c);
    c := Act(job, start, c, Finalize(Original));
  }

  lemma DeploymentCanFinish(job: Job, start: Config) returns (c: Config)
    requires job.kind.Deployment? && Start(job, start)
    ensures Reachable(job, start, c) && c.point.Done?
  {
    c := ReachGone(job, start);
    c := Advance(job, start, c);
    if job.policy == Retain {
      c := Advance(job, start, c);
    }
  }

  /** The recreated claim is filled from the scratch claim. */
  lemma ReachRefilled(job: Job, start: Config) returns (c: Config)
    requires job.kind.StatefulSet? && Start(job, start)
    ensures Reachable(job, start, c) && c.saved.Some? && c.point.InspectOriginal?
    ensures Original in c.s.claims && Scratch in c.s.claims && c.s.mount.None?
  {
    c := ReachRecreated(job, start);
    c := Advance(job, start, c);
  }

  lemma ReachRecreated(job: Job, start: Config) returns (c: Config)
    requires job.kind.StatefulSet? && Start(job, start)
    ensures Reachable(job, start, c) && c.saved.Some? && c.point.CopyBack?
    ensures Copyable(c.s, Scratch, Original) && c.s.mount.None?
  {
    c := ReachDeleted(job, start);
    c := Act(job, start, c, Finalize(Original));
    c := Advance(job, start, c);
    c := Advance(job, start, c);
  }

  lemma StatefulSetCanFinish(job: Job, start: Config) returns (c: Config)
    requires job.kind.StatefulSet? && Start(job, start)
    ensures Reachable(job, start, c) && c.point.Done?
  {
    c := ReachCleaning(job, start);
    c := Act(job, start, c, Finalize(Scratch));
    c := Advance(job, start, c);
    c := Advance(job, start, c);
  }

  lemma ReachUp(job: Job, start: Config) returns (c: Config)
    requires job.kind.StatefulSet? && Start(job, start)
    ensures Reachable(job, start, c) && c.saved.Some? && c.point.DeleteScratch? && c.s.mount.None?
    ensures Scratch in c.s.claims
  {
    c := ReachRefilled(job, start);
    c := Advance(job, start, c);
    c := Advance(job, start, c);
  }

  lemma ReachCleaning(job: Job, start: Config) returns (c: Config)
    requires job.kind.StatefulSet? && Start(job, start)
    ensures Reachable(job, start, c) && c.saved.Some? && c.point.WaitScratch? && c.s.mount.None?
    ensures Scratch in c.s.claims && c.s.claims[Scratch].deleting
  {
    c := ReachUp(job, start);
    c := Advance(job, start, c);
  }

  /** From every start the downsize can succeed. */
  lemma DownsizeCanFinish(job: Job, start: Config)
    requires Start(job, start)
    ensures exists labels :: Exec(job, start, labels).point.Done?
  {
    var c;
    if job.kind.Deployment? { c := DeploymentCanFinish(job, start); } else { c := StatefulSetCanFinish(job, start); }
    var labels :| Exec(job, start, labels) == c;
  }
}
