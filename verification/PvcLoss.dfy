/** Exactly when the StatefulSet downsize can lose data. */
module PvcLoss {
  import opened Options
  import opened PvcCluster
  import opened PvcMachine
  import opened PvcSafety

  ghost predicate Reachable(job: Job, start: Config, cfg: Config) {
    exists labels :: Exec(job, start, labels) == cfg
  }

  lemma Extend(job: Job, start: Config, cfg: Config, l: Label)
    requires Reachable(job, start, cfg)
    ensures Reachable(job, start, Step(job, cfg, l))
  {
    var labels :| Exec(job, start, labels) == cfg;
    ExecAppend(job, start, labels, l);
  }

  lemma Advance(job: Job, start: Config, c: Config) returns (n: Config)
    requires Reachable(job, start, c) && !Final(c.point) && CanSucceed(c.s, OpAt(job, c)) && c.saved.Some?
    ensures Reachable(job, start, n)
    ensures n == Config(AfterSuccess(job, c.point), Effect(c.s, OpAt(job, c), {}), c.saved)
  {
    n := Step(job, c, Succeed({}));
    Extend(job, start, c, Succeed({}));
  }

  lemma Act(job: Job, start: Config, c: Config, a: EnvAction) returns (n: Config)
    requires Reachable(job, start, c)
    ensures Reachable(job, start, n) && n == c.(s := EnvApply(job.kind, c.s, a))
  {
    n := Step(job, c, Env(a));
    Extend(job, start, c, Env(a));
  }

  /** The workload can be brought down with its volume on Retain. */
  lemma ReachRetained(job: Job, start: Config) returns (c: Config)
    requires job.kind.StatefulSet? && Start(job, start)
    ensures Reachable(job, start, c) && c.point.CreateScratch? && c.saved == Some(start.s.replicas)
    ensures c.s == start.s.(replicas := 0, mount := None,
                            volumes := map[job.pv := Volume(Retain, start.s.data)])
  {
    assert Exec(job, start, []) == start;
    c := Act(job, start, start, StopPods);
    Extend(job, start, c, Observe);
    c := Step(job, c, Observe);
    c := Advance(job, start, c);
    c := Advance(job, start, c);
    if job.policy != Retain {
      c := Advance(job, start, c);
    } else {
      assert start.s.volumes == map[job.pv := Volume(Retain, start.s.data)];
    }
  }

  /** Both claims on their own volumes, deleted or not, and no pod. */
  predicate TwoClaims(job: Job, start: Config, s: State, originalGoing: bool, scratchGoing: bool) {
    && job.pv < start.s.next && s.mount.None? && s.data == start.s.data && s.template.Original?
    && s.claims == map[Original := Claim(job.pv, originalGoing), Scratch := Claim(start.s.next, scratchGoing)]
    && s.volumes.Keys == {job.pv, start.s.next}
    && s.volumes[start.s.next].policy == start.s.classPolicy
  }

  lemma ReachScratch(job: Job, start: Config) returns (c: Config)
    requires job.kind.StatefulSet? && Start(job, start)
    ensures Reachable(job, start, c) && c.point.CopyOut? && c.saved == Some(start.s.replicas)
    ensures TwoClaims(job, start, c.s, false, false)
  {
    c := ReachRetained(job, start);
    c := Advance(job, start, c);
  }

  lemma ReachCopied(job: Job, start: Config) returns (c: Config)
    requires job.kind.StatefulSet? && Start(job, start)
    ensures Reachable(job, start, c) && c.point.DeleteOriginal? && c.saved == Some(start.s.replicas)
    ensures TwoClaims(job, start, c.s, false, false)
  {
    c := ReachScratch(job, start);
    c := Advance(job, start, c);
  }

  lemma ReachDeleted(job: Job, start: Config) returns (c: Config)
    requires job.kind.StatefulSet? && Start(job, start)
    ensures Reachable(job, start, c) && c.point.WaitOriginal? && c.saved == Some(start.s.replicas)
    ensures TwoClaims(job, start, c.s, true, false)
  {
    c := ReachCopied(job, start);
    c := Advance(job, start, c);
  }

  /** The wait for the deleted claim fails. The agent takes this for a failure before the point of
      no return, and begins to undo. */
  lemma ReachOverdue(job: Job, start: Config) returns (c: Config)
    requires job.kind.StatefulSet? && Start(job, start)
    ensures Reachable(job, start, c) && c.point.UndoScratch? && c.saved == Some(start.s.replicas)
    ensures TwoClaims(job, start, c.s, true, false)
  {
    c := ReachDeleted(job, start);
    Extend(job, start, c, Fail(false, {}));
    c := Step(job, c, Fail(false, {}));
  }

  /** It deletes the scratch claim. */
  lemma ReachScratchGoing(job: Job, start: Config) returns (c: Config)
    requires job.kind.StatefulSet? && Start(job, start)
    ensures Reachable(job, start, c) && c.saved == Some(start.s.replicas) && TwoClaims(job, start, c.s, true, true)
    ensures c.point == if job.policy != Retain then UndoPolicy else UndoScale
  {
    c := ReachOverdue(job, start);
    c := Advance(job, start, c);
  }

  /** It restores the reclaim policy. */
  lemma ReachUndone(job: Job, start: Config) returns (c: Config)
    requires job.kind.StatefulSet? && Start(job, start)
    ensures Reachable(job, start, c) && c.saved == Some(start.s.replicas) && TwoClaims(job, start, c.s, true, true)
    ensures c.point.UndoScale? && (job.policy != Retain ==> c.s.volumes[job.pv].policy == job.policy)
  {
    c := ReachScratchGoing(job, start);
    if job.policy != Retain {
      c := Advance(job, start, c);
    }
  }

  /** The cluster then finishes both deletions. */
  lemma ReachUnclaimed(job: Job, start: Config) returns (c: Config)
    requires job.kind.StatefulSet? && Start(job, start) && job.policy != Retain
    ensures Reachable(job, start, c) && c.s.claims == map[]
    ensures c.s.volumes.Keys == {job.pv, start.s.next} && c.s.volumes[job.pv].policy == job.policy
    ensures c.s.volumes[start.s.next].policy == start.s.classPolicy
  {
    c := ReachUndone(job, start);
    c := Act(job, start, c, Finalize(Original));
    c := Act(job, start, c, Finalize(Scratch));
  }

  /** It reclaims both volumes, and nothing is left. */
  lemma ReachNothing(job: Job, start: Config) returns (c: Config)
    requires job.kind.StatefulSet? && Start(job, start)
    requires job.policy != Retain && start.s.classPolicy != Retain
    ensures Reachable(job, start, c) && c.s.volumes == map[]
  {
    c := ReachUnclaimed(job, start);
    c := Act(job, start, c, Reclaim(job.pv));
    c := Act(job, start, c, Reclaim(start.s.next));
    assert c.s.volumes.Keys == {};
  }

  /** With any failure allowed at any call, failed calls possibly applied, the StatefulSet downsize
      keeps a complete copy in every reachable state exactly when the original volume was on Retain
      already or the storage class retains the volumes it provisions. */
  lemma StatefulSetKeepsACopyIff(job: Job, start: Config)
    requires job.kind.StatefulSet? && Start(job, start)
    ensures (forall labels :: CopyExists(Exec(job, start, labels).s))
            <==> (job.policy == Retain || start.s.classPolicy == Retain)
  {
    if job.policy == Retain || start.s.classPolicy == Retain {
      forall labels
        ensures CopyExists(Exec(job, start, labels).s)
      {
        StatefulSetRun(job, false, start, labels);
        StatefulSetInvKeepsACopy(job, false, Exec(job, start, labels));
      }
    } else {
      var c := ReachNothing(job, start);
      var labels :| Exec(job, start, labels) == c;
      assert !CopyExists(Exec(job, start, labels).s);
    }
  }

  // ---------------------------------------------------------------- what pods run on

  predicate PodsOnACopy(s: State) {
    s.mount.Some? ==> Complete(s, s.mount.value)
  }

  /** A workload without replicas: pods can only be those it started with, on the original volume, and only
      while the agent has not seen them gone. */
  predicate NoReplicas(job: Job, cfg: Config) {
    var s := cfg.s;
    && s.replicas == 0 && Saved(cfg) == 0
    && (s.mount.Some? ==>
          && s.mount.value == job.pv && Complete(s, job.pv)
          && Original in s.claims && s.claims[Original].volume == job.pv
          && (cfg.point.ScaleDown? || cfg.point.WaitPods? || cfg.point.UndoScale? || cfg.point.RolledBack?))
  }

  lemma NoReplicasStep(job: Job, cfg: Config, l: Label)
    requires job.kind.StatefulSet? && NoReplicas(job, cfg)
    ensures NoReplicas(job, Step(job, cfg, l))
  {
  }

  lemma {:induction false} NoReplicasRun(job: Job, start: Config, labels: seq<Label>)
    requires job.kind.StatefulSet? && Start(job, start) && start.s.replicas == 0
    ensures NoReplicas(job, Exec(job, start, labels))
  {
    if labels != [] {
      NoReplicasRun(job, start, labels[..|labels| - 1]);
      NoReplicasStep(job, Exec(job, start, labels[..|labels| - 1]), labels[|labels| - 1]);
    }
  }

  /** Before the downsize the workload can write something. */
  lemma ReachWritten(job: Job, start: Config) returns (c: Config)
    requires job.kind.StatefulSet? && Start(job, start) && start.s.replicas > 0
    ensures Reachable(job, start, c) && Start(job, c) && c.s.replicas == start.s.replicas && c.s.data != map[]
  {
    assert Exec(job, start, []) == start;
    var files: Files := map["f" := ""];
    c := Act(job, start, start, StartPods);
    assert c.s == start.s.(mount := Some(job.pv));
    c := Act(job, start, c, Write(files));
    assert "f" in c.s.data;
  }

  /** After the overdue deletion the agent scales up, and the cluster finishes the deletion. */
  lemma ReachScaledUp(job: Job, start: Config) returns (c: Config)
    requires job.kind.StatefulSet? && Start(job, start)
    ensures Reachable(job, start, c) && Original !in c.s.claims
    ensures c.s.replicas == start.s.replicas && c.s.mount.None? && c.s.data == start.s.data && c.s.template.Original?
  {
    c := ReachUndone(job, start);
    c := Advance(job, start, c);
    c := Act(job, start, c, Finalize(Original));
  }

  /** The StatefulSet controller fills its template with an empty claim, and pods start on it. */
  lemma ReachEmptyPods(job: Job, start: Config) returns (c: Config)
    requires job.kind.StatefulSet? && Start(job, start) && start.s.replicas > 0 && start.s.data != map[]
    ensures Reachable(job, start, c) && !PodsOnACopy(c.s)
  {
    c := ReachScaledUp(job, start);
    c := Act(job, start, c, FillTemplate);
    c := Act(job, start, c, StartPods);
  }

  lemma {:induction false} ExecConcat(job: Job, start: Config, a: seq<Label>, b: seq<Label>)
    ensures Exec(job, start, a + b) == Exec(job, Exec(job, start, a), b)
    decreases |b|
  {
    if b == [] {
      assert a + b == a;
    } else {
      assert (a + b)[..|a + b| - 1] == a + b[..|b| - 1];
      ExecConcat(job, start, a, b[..|b| - 1]);
    }
  }

  lemma ReachableTrans(job: Job, a: Config, b: Config, c: Config)
    requires Reachable(job, a, b) && Reachable(job, b, c)
    ensures Reachable(job, a, c)
  {
    var l :| Exec(job, a, l) == b;
    var m :| Exec(job, b, m) == c;
    ExecConcat(job, a, l, m);
  }

  /** With any failure allowed at any call, pods of a StatefulSet run only ever on a complete volume exactly
      when the workload has no replicas to start with: otherwise a failed wait lets the agent scale up, and
      pods start on an empty claim, whatever the reclaim policies keep. */
  lemma StatefulSetPodsOnACopyIff(job: Job, start: Config)
    requires job.kind.StatefulSet? && Start(job, start)
    ensures (forall labels :: PodsOnACopy(Exec(job, start, labels).s)) <==> start.s.replicas == 0
  {
    if start.s.replicas == 0 {
      forall labels
        ensures PodsOnACopy(Exec(job, start, labels).s)
      {
        NoReplicasRun(job, start, labels);
      }
    } else {
      var b := ReachWritten(job, start);
      var c := ReachEmptyPods(job, b);
      ReachableTrans(job, start, b, c);
      var labels :| Exec(job, start, labels) == c;
      assert !PodsOnACopy(Exec(job, start, labels).s);
    }
  }
}
