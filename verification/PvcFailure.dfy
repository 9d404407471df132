/** What a downsize that fails has done: before the point of no return it takes back what it did, in the reverse
    order, and past that point it takes back nothing. */
module PvcFailure {
  import opened Options
  import opened PvcCluster
  import opened PvcMachine
  import opened PvcRollback
  import opened PvcOutcome

  /** The calls that succeeded before anything failed. */
  function Made(job: Job, start: Config, labels: seq<Label>): seq<Op> {
    if labels == [] then []
    else
      var k := |labels| - 1;
      var cfg := Exec(job, start, labels[..k]);
      Made(job, start, labels[..k]) + if Forward(cfg.point) then Added(job, cfg, labels[k]) else []
  }

  /** The calls of the rollback that were answered, well or not. */
  function TakenBack(job: Job, start: Config, labels: seq<Label>): seq<Op> {
    if labels == [] then []
    else
      var k := |labels| - 1;
      TakenBack(job, start, labels[..k]) + Answered(job, Exec(job, start, labels[..k]), labels[k])
  }

  function Answered(job: Job, cfg: Config, l: Label): seq<Op> {
    if Undoing(cfg.point) && Step(job, cfg, l).point != cfg.point then [OpAt(job, cfg)] else []
  }

  /** The calls that take back what was done, the latest first. */
  function Reversal(job: Job, replicas: nat, made: seq<Op>): seq<Op> {
    (if Create(Scratch) in made then [DeleteClaim(Scratch)] else [])
    + (if Patch(job.pv, Retain) in made then [Patch(job.pv, job.policy)] else [])
    + (if Scale(0) in made then [Scale(replicas)] else [])
  }

  /** How many calls lead past the point of no return: the last is the repoint of a Deployment, or the wait for
      the deleted claim of a StatefulSet. */
  function NoReturn(job: Job): nat {
    if job.kind.StatefulSet? && job.policy != Retain then 7 else 6
  }

  lemma NoReturnIs(job: Job, replicas: nat)
    ensures NoReturn(job) < |Plan(job, replicas)|
    ensures Plan(job, replicas)[NoReturn(job) - 1]
         == if job.kind.Deployment? then Repoint(Scratch) else AwaitGone(Original)
  {
  }

  /** The rollback calls that are still to come at a point. */
  function Ahead(job: Job, replicas: nat, p: Point): seq<Op> {
    var policy := if job.kind.StatefulSet? && job.policy != Retain then [Patch(job.pv, job.policy)] else [];
    match p
    case UndoScratch => [DeleteClaim(Scratch)] + policy + [Scale(replicas)]
    case UndoPolicy => [Patch(job.pv, job.policy), Scale(replicas)]
    case UndoScale => [Scale(replicas)]
    case _ => []
  }

  ghost predicate FailureInv(job: Job, replicas: nat, plan: seq<Op>, p: Point, made: seq<Op>, back: seq<Op>) {
    && made <= plan
    && (Forward(p) && !p.Done? ==> OnTheWay(job, p) && |made| == Behind(job, p) && back == [])
    && (Undoing(p) || p.RolledBack? ==>
          |made| < NoReturn(job) && back + Ahead(job, replicas, p) == Reversal(job, replicas, made))
    && (p.UndoPolicy? ==> job.kind.StatefulSet? && job.policy != Retain)
    && (p.Stuck? ==> |made| >= NoReturn(job) && back == [])
  }

  /** What a failure on the way leads to. */
  lemma TurnsAround(job: Job, replicas: nat, p: Point)
    requires OnTheWay(job, p) && Behind(job, p) < |Plan(job, replicas)|
    ensures var n, made := AfterFailure(job, p), Plan(job, replicas)[..Behind(job, p)];
            && (n.Stuck? ==> Behind(job, p) >= NoReturn(job))
            && (n.UndoPolicy? ==> job.kind.StatefulSet? && job.policy != Retain)
            && (Undoing(n) || n.RolledBack? ==>
                  Behind(job, p) < NoReturn(job) && Ahead(job, replicas, n) == Reversal(job, replicas, made))
  {
    var made := Plan(job, replicas)[..Behind(job, p)];
    if Undoing(AfterFailure(job, p)) { MadeBefore(job, replicas, p); }
  }

  /** What was done before a point from which there is a return. */
  lemma MadeBefore(job: Job, replicas: nat, p: Point)
    requires OnTheWay(job, p) && Behind(job, p) < |Plan(job, replicas)| && Undoing(AfterFailure(job, p))
    ensures var n, made := AfterFailure(job, p), Plan(job, replicas)[..Behind(job, p)];
            && (Create(Scratch) in made <==> n.UndoScratch?)
            && (Patch(job.pv, Retain) in made <==>
                  job.kind.StatefulSet? && job.policy != Retain && (n.UndoScratch? || n.UndoPolicy?))
            && Scale(0) in made
  {
    var made := Plan(job, replicas)[..Behind(job, p)];
    var k := if job.kind.StatefulSet? && job.policy != Retain then 3 else 2;
    assert made[0] == Scale(0) && (|made| > 1 ==> made[1] == AwaitNoPods);
    assert |made| > k ==> made[k] == Create(Scratch);
    assert |made| > 2 && k == 3 ==> made[2] == Patch(job.pv, Retain);
  }

  /** A call of the plan succeeds. */
  lemma PointAdvances(job: Job, replicas: nat, plan: seq<Op>, p: Point, n: Point, made: seq<Op>)
    requires FailureInv(job, replicas, plan, p, made, []) && Forward(p) && !p.Done? && Behind(job, p) < |plan|
    requires n.Done? || (OnTheWay(job, n) && Behind(job, n) == Behind(job, p) + 1)
    ensures FailureInv(job, replicas, plan, n, made + [plan[Behind(job, p)]], [])
  {
    TakeOne(plan, Behind(job, p));
    assert made == plan[..Behind(job, p)];
  }

  lemma PointFails(job: Job, replicas: nat, p: Point, made: seq<Op>)
    requires FailureInv(job, replicas, Plan(job, replicas), p, made, []) && Forward(p) && !p.Done?
    requires Behind(job, p) < |Plan(job, replicas)|
    ensures FailureInv(job, replicas, Plan(job, replicas), AfterFailure(job, p), made, [])
  {
    AfterFailing(job, replicas, p);
    TurnsAround(job, replicas, p);
    assert made == Plan(job, replicas)[..Behind(job, p)];
  }

  /** A call on the way is answered. */
  lemma FailureCall(job: Job, replicas: nat, cfg: Config, l: Label, made: seq<Op>)
    requires FailureInv(job, replicas, Plan(job, replicas), cfg.point, made, []) && Prior(replicas, cfg)
    requires Forward(cfg.point) && !cfg.point.Done? && Step(job, cfg, l).point != cfg.point
    ensures FailureInv(job, replicas, Plan(job, replicas), Step(job, cfg, l).point, made + Added(job, cfg, l), [])
  {
    PointStep(job, cfg, l);
    NextOfPlan(job, replicas, cfg);
    if l.Succeed? {
      AfterNext(job, replicas, cfg.point);
      PointAdvances(job, replicas, Plan(job, replicas), cfg.point, AfterSuccess(job, cfg.point), made);
    } else {
      PointFails(job, replicas, cfg.point, made);
      assert made + [] == made;
    }
  }

  /** A rollback call is answered. */
  lemma RollbackCall(job: Job, replicas: nat, plan: seq<Op>, cfg: Config, l: Label, made: seq<Op>, back: seq<Op>)
    requires FailureInv(job, replicas, plan, cfg.point, made, back) && Undoing(cfg.point) && cfg.saved == Some(replicas)
    requires Step(job, cfg, l).point != cfg.point
    ensures FailureInv(job, replicas, plan, Step(job, cfg, l).point, made, back + Answered(job, cfg, l))
  {
    PointStep(job, cfg, l);
    var op, n := OpAt(job, cfg), Step(job, cfg, l).point;
    assert Ahead(job, replicas, cfg.point) == [op] + Ahead(job, replicas, n);
    assert back + ([op] + Ahead(job, replicas, n)) == back + [op] + Ahead(job, replicas, n);
  }

  lemma FailureStep(job: Job, replicas: nat, cfg: Config, l: Label, made: seq<Op>, back: seq<Op>)
    requires FailureInv(job, replicas, Plan(job, replicas), cfg.point, made, back) && Prior(replicas, cfg)
    ensures FailureInv(job, replicas, Plan(job, replicas), Step(job, cfg, l).point,
                       made + (if Forward(cfg.point) then Added(job, cfg, l) else []), back + Answered(job, cfg, l))
  {
    assert made + [] == made && back + [] == back;
    if Step(job, cfg, l).point != cfg.point {
      PointStep(job, cfg, l);
      if Final(cfg.point) { NotForwardStays(job, cfg.point); }
      if Undoing(cfg.point) {
        RollbackCall(job, replicas, Plan(job, replicas), cfg, l, made, back);
      } else {
        FailureCall(job, replicas, cfg, l, made);
      }
    }
  }

  /** Nothing leads on from the end. */
  lemma NotForwardStays(job: Job, p: Point)
    requires Final(p)
    ensures AfterSuccess(job, p) == p && AfterFailure(job, p) == p
  {
  }

  lemma {:induction false} FailureRun(job: Job, start: Config, labels: seq<Label>)
    requires Start(job, start)
    ensures FailureInv(job, start.s.replicas, Plan(job, start.s.replicas), Exec(job, start, labels).point,
                       Made(job, start, labels), TakenBack(job, start, labels))
  {
    if labels != [] {
      var k := |labels| - 1;
      FailureRun(job, start, labels[..k]);
      SavedIsPrior(job, start, labels[..k]);
      FailureStep(job, start.s.replicas, Exec(job, start, labels[..k]), labels[k], Made(job, start, labels[..k]),
                  TakenBack(job, start, labels[..k]));
    }
  }

  /** The calls that succeeded on the way are the first of the plan. Short of the point of no return exactly these
      are taken back, the latest first, with the replicas from before; past it nothing is. */
  predicate TurnedAround(job: Job, replicas: nat, p: Point, made: seq<Op>, back: seq<Op>) {
    && made <= Plan(job, replicas)
    && if p.RolledBack? then |made| < NoReturn(job) && back == Reversal(job, replicas, made)
       else |made| >= NoReturn(job) && back == []
  }

  /** Every run that fails. */
  lemma FailureIsTakenBack(job: Job, start: Config, labels: seq<Label>)
    requires Start(job, start) && Final(Exec(job, start, labels).point) && !Exec(job, start, labels).point.Done?
    ensures TurnedAround(job, start.s.replicas, Exec(job, start, labels).point, Made(job, start, labels),
                         TakenBack(job, start, labels))
  {
    FailureRun(job, start, labels);
    var back := TakenBack(job, start, labels);
    assert back + [] == back;
  }
}
