/** Any number of writers editing one PrometheusRule through read, local edit, versioned update
    and retry on conflict. */
module AlertRuleStore {
  import opened Options
  import opened AlertRules
  import opened AlertRuleEdits

  datatype Op =
    | CreateOrReplace(alert: string, rule: Rule)
    | DeleteAlert(alert: string)
    | PatchIn(loc: Locator, change: Change)
    | DeleteIn(loc: Locator)

  /** The resource: None when it does not exist. */
  type Resource = Option<seq<Group>>

  /** The outcome of one operation on the resource as read. */
  function Apply(op: Op, r: Resource): Reply {
    match op
    case CreateOrReplace(alert, rule) =>
      if r.None? then Put([NewGroup(LEGACY_GROUP, rule)]) else Put(Upsert(r.value, alert, rule))
    case DeleteAlert(alert) =>
      if r.None? || !HasAlert(r.value, alert) then Unchanged else Put(RemoveAlert(r.value, alert))
    case PatchIn(loc, c) => if r.None? then NotFound else Patch(r.value, loc, c)
    case DeleteIn(loc) => if r.None? then NotFound else Drop(r.value, loc)
  }

  /** The API server's copy. `version` is the resource version of `groups`; every write takes a
      version never used before. */
  datatype Server = Server(resource: Resource, version: nat, used: nat)

  datatype Verdict =
    | Committed              // the server accepted the write
    | Lost(applied: bool)    // the request failed; the write may have been applied all the same
    | Answered(at: nat)      // nothing to write, decided on the resource as read

  /** `at` counts the log entries that preceded the read. */
  datatype Writer = Ready | Holding(seen: Resource, version: nat, at: nat) | Finished(verdict: Verdict)

  datatype Entry = Wrote(writer: nat) | Vanished

  /** `log` lists what changed the resource, in order. */
  datatype World = World(server: Server, writers: seq<Writer>, log: seq<Entry>)

  datatype Fate = Delivered | Dropped | AnswerLost

  datatype Action = Read(writer: nat) | Write(writer: nat, fate: Fate) | RemoveResource

  function Store(s: Server, groups: seq<Group>): Server {
    Server(Some(groups), s.used + 1, s.used + 1)
  }

  /** The server accepts a create only when the resource is absent, and an update only when it is
      present at the version that was read. */
  predicate Accepts(s: Server, w: Writer)
    requires w.Holding?
  {
    if w.seen.None? then s.resource.None? else s.resource.Some? && s.version == w.version
  }

  function Finish(w: World, i: nat, v: Verdict): World
    requires i < |w.writers|
  {
    w.(writers := w.writers[i := Finished(v)])
  }

  /** The write that writer `i` prepared from what it read. */
  function Deliver(w: World, i: nat, groups: seq<Group>, fate: Fate): World
    requires i < |w.writers| && w.writers[i].Holding?
  {
    if fate.Dropped? then Finish(w, i, Lost(false))
    else if Accepts(w.server, w.writers[i]) then
      World(Store(w.server, groups),
            w.writers[i := Finished(if fate.Delivered? then Committed else Lost(true))],
            w.log + [Wrote(i)])
    else if w.writers[i].seen.Some? && w.server.resource.None? then Finish(w, i, Lost(false))
    else if fate.Delivered? then w.(writers := w.writers[i := Ready])   // conflict: read again
    else Finish(w, i, Lost(false))
  }

  function Step(ops: seq<Op>, w: World, a: Action): World
    requires |ops| == |w.writers|
  {
    match a
    case Read(i) =>
      if i < |w.writers| && w.writers[i].Ready?
      then w.(writers := w.writers[i := Holding(w.server.resource, w.server.version, |w.log|)]) else w
    case Write(i, fate) =>
      if i < |w.writers| && w.writers[i].Holding? then
        match Apply(ops[i], w.writers[i].seen)
        case Put(groups) => Deliver(w, i, groups, fate)
        case _ => Finish(w, i, Answered(w.writers[i].at))
      else w
    case RemoveResource =>
      if w.server.resource.Some?
      then World(w.server.(resource := None), w.writers, w.log + [Vanished]) else w
  }

  function Run(ops: seq<Op>, initial: Server, actions: seq<Action>): (w: World)
    ensures |w.writers| == |ops|
  {
    if actions == [] then World(initial, seq(|ops|, _ => Ready), [])
    else Step(ops, Run(ops, initial, actions[..|actions| - 1]), actions[|actions| - 1])
  }

  // ---------------------------------------------------------------- serialisability

  /** Doing the logged edits one after the other, each on the result of the one before. */
  function Replay(ops: seq<Op>, initial: Resource, log: seq<Entry>): Resource {
    if log == [] then initial
    else
      var before := Replay(ops, initial, log[..|log| - 1]);
      match log[|log| - 1]
      case Vanished => None
      case Wrote(i) =>
        if i < |ops| && Apply(ops[i], before).Put? then Some(Apply(ops[i], before).groups) else before
  }

  /** How many times writer `i` is in the log. */
  function Writes(log: seq<Entry>, i: nat): nat {
    if log == [] then 0 else Writes(log[..|log| - 1], i) + (if log[|log| - 1] == Wrote(i) then 1 else 0)
  }

  predicate Wrote1(v: Verdict) {
    v.Committed? || v == Lost(true)
  }

  /** A writer that holds a copy holds the resource as it was after `at` log entries; if the server
      still has that version, it still has those groups. */
  ghost predicate WriterInv(ops: seq<Op>, initial: Server, w: World, i: nat)
    requires |ops| == |w.writers| && i < |ops|
  {
    match w.writers[i]
    case Ready => Writes(w.log, i) == 0
    case Holding(seen, version, at) =>
      && Writes(w.log, i) == 0
      && at <= |w.log| && seen == Replay(ops, initial.resource, w.log[..at])
      && version <= w.server.used
      && (seen.Some? && w.server.resource.Some? && w.server.version == version ==> w.server.resource == seen)
    case Finished(v) =>
      && Writes(w.log, i) == (if Wrote1(v) then 1 else 0)
      && (v.Answered? ==> v.at <= |w.log| && !Apply(ops[i], Replay(ops, initial.resource, w.log[..v.at])).Put?)
  }

  ghost predicate Inv(ops: seq<Op>, initial: Server, w: World)
    requires |ops| == |w.writers|
  {
    && w.server.resource == Replay(ops, initial.resource, w.log)
    && w.server.version <= w.server.used
    && forall i :: 0 <= i < |ops| ==> WriterInv(ops, initial, w, i)
  }

  lemma ReplayAppend(ops: seq<Op>, initial: Resource, log: seq<Entry>, e: Entry)
    ensures Replay(ops, initial, log + [e]) ==
            match e
            case Vanished => None
            case Wrote(i) =>
              var before := Replay(ops, initial, log);
              if i < |ops| && Apply(ops[i], before).Put? then Some(Apply(ops[i], before).groups) else before
    ensures forall i: nat :: Writes(log + [e], i) == Writes(log, i) + (if e == Wrote(i) then 1 else 0)
  {
    assert (log + [e])[..|log|] == log;
  }

  /** What was recorded about a prefix of the log still holds when the log grows. */
  lemma LogGrows(ops: seq<Op>, initial: Server, w: World, n: World, e: Entry, j: nat)
    requires |ops| == |w.writers| == |n.writers| && j < |ops| && WriterInv(ops, initial, w, j)
    requires n.writers[j] == w.writers[j] && n.log == w.log + [e] && e != Wrote(j)
    requires w.server.used <= n.server.used
    requires n.server.resource.Some? ==> n.server.version > w.server.used
    ensures WriterInv(ops, initial, n, j)
  {
    ReplayAppend(ops, initial.resource, w.log, e);
    var at := match w.writers[j] case Holding(_, _, at) => at case Finished(Answered(at)) => at case _ => 0;
    assert n.log[..at] == w.log[..at];
  }

  lemma DeliverKeepsInv(ops: seq<Op>, initial: Server, w: World, i: nat, fate: Fate)
    requires |ops| == |w.writers| && Inv(ops, initial, w) && i < |ops| && w.writers[i].Holding?
    requires Apply(ops[i], w.writers[i].seen).Put?
    ensures Inv(ops, initial, Deliver(w, i, Apply(ops[i], w.writers[i].seen).groups, fate))
  {
    var groups := Apply(ops[i], w.writers[i].seen).groups;
    var n := Deliver(w, i, groups, fate);
    assert WriterInv(ops, initial, w, i);
    if n.log != w.log {
      AcceptKeepsInv(ops, initial, w, i, n.writers[i].verdict);
    } else {
      forall j | 0 <= j < |ops|
        ensures WriterInv(ops, initial, n, j)
      {
        assert WriterInv(ops, initial, w, j);
      }
    }
  }

  /** The server takes the write of a writer whose copy is current. */
  lemma AcceptKeepsInv(ops: seq<Op>, initial: Server, w: World, i: nat, v: Verdict)
    requires |ops| == |w.writers| && Inv(ops, initial, w) && i < |ops| && w.writers[i].Holding?
    requires Apply(ops[i], w.writers[i].seen).Put? && Accepts(w.server, w.writers[i]) && Wrote1(v)
    ensures Inv(ops, initial, World(Store(w.server, Apply(ops[i], w.writers[i].seen).groups),
                                    w.writers[i := Finished(v)], w.log + [Wrote(i)]))
  {
    var n := World(Store(w.server, Apply(ops[i], w.writers[i].seen).groups), w.writers[i := Finished(v)],
                   w.log + [Wrote(i)]);
    assert WriterInv(ops, initial, w, i);
    assert w.server.resource == w.writers[i].seen;
    ReplayAppend(ops, initial.resource, w.log, Wrote(i));
    forall j | 0 <= j < |ops|
      ensures WriterInv(ops, initial, n, j)
    {
      if j != i { LogGrows(ops, initial, w, n, Wrote(i), j); }
    }
  }

  lemma StepKeepsInv(ops: seq<Op>, initial: Server, w: World, a: Action)
    requires |ops| == |w.writers| && Inv(ops, initial, w)
    ensures Inv(ops, initial, Step(ops, w, a))
  {
    var n := Step(ops, w, a);
    match a
    case Read(i) =>
      assert w.log[..|w.log|] == w.log;
      forall j | 0 <= j < |ops|
        ensures WriterInv(ops, initial, n, j)
      {
        assert WriterInv(ops, initial, w, j);
      }
    case Write(i, fate) =>
      if i < |ops| && w.writers[i].Holding? {
        assert WriterInv(ops, initial, w, i);
        if Apply(ops[i], w.writers[i].seen).Put? {
          DeliverKeepsInv(ops, initial, w, i, fate);
        } else {
          forall j | 0 <= j < |ops|
            ensures WriterInv(ops, initial, n, j)
          {
            assert WriterInv(ops, initial, w, j);
          }
        }
      }
    case RemoveResource =>
      if w.server.resource.Some? {
        ReplayAppend(ops, initial.resource, w.log, Vanished);
        forall j | 0 <= j < |ops|
          ensures WriterInv(ops, initial, n, j)
        {
          LogGrows(ops, initial, w, n, Vanished, j);
        }
      }
  }

  lemma {:induction false} RunKeepsInv(ops: seq<Op>, initial: Server, actions: seq<Action>)
    requires initial.version <= initial.used
    ensures Inv(ops, initial, Run(ops, initial, actions))
  {
    if actions != [] {
      var k := |actions| - 1;
      RunKeepsInv(ops, initial, actions[..k]);
      StepKeepsInv(ops, initial, Run(ops, initial, actions[..k]), actions[k]);
    }
  }

  /** For every interleaving of any writers: the resource is the result of the logged edits done one
      after the other; a writer whose write was accepted is in the log exactly once and any other
      writer not at all; and a writer that found nothing to write was right about the resource at
      the moment it read it. */
  lemma Serialisable(ops: seq<Op>, initial: Server, actions: seq<Action>)
    requires initial.version <= initial.used
    ensures var w := Run(ops, initial, actions);
            && w.server.resource == Replay(ops, initial.resource, w.log)
            && forall i :: 0 <= i < |ops| ==>
                 && Writes(w.log, i) == (if w.writers[i].Finished? && Wrote1(w.writers[i].verdict) then 1 else 0)
                 && (w.writers[i].Finished? && w.writers[i].verdict.Answered? ==>
                       && w.writers[i].verdict.at <= |w.log|
                       && !Apply(ops[i], Replay(ops, initial.resource, w.log[..w.writers[i].verdict.at])).Put?)
  {
    RunKeepsInv(ops, initial, actions);
    var w := Run(ops, initial, actions);
    forall i | 0 <= i < |ops|
      ensures Writes(w.log, i) == (if w.writers[i].Finished? && Wrote1(w.writers[i].verdict) then 1 else 0)
      ensures w.writers[i].Finished? && w.writers[i].verdict.Answered? ==>
                && w.writers[i].verdict.at <= |w.log|
                && !Apply(ops[i], Replay(ops, initial.resource, w.log[..w.writers[i].verdict.at])).Put?
    {
      assert WriterInv(ops, initial, w, i);
    }
  }

  // ---------------------------------------------------------------- what a committed edit did

  /** What the answer to an operation means for the resource it was made from. */
  ghost predicate Means(op: Op, before: Resource, reply: Reply) {
    match op
    case CreateOrReplace(alert, rule) =>
      var groups := if before.Some? then before.value else [];
      && reply.Put? && Contains(reply.groups, rule)
      && (groups != [] ==> SameElsewhere(groups, reply.groups, alert))
      && (groups == [] ==> |reply.groups| == 1 && RulesOf(reply.groups[0]) == [rule])
      && Total(reply.groups, Locator("", alert))
         == (if HasAlert(groups, alert) then Total(groups, Locator("", alert)) else 1)
    case DeleteAlert(alert) =>
      && (reply.Put? <==> before.Some? && HasAlert(before.value, alert)) && (!reply.Put? ==> reply.Unchanged?)
      && (reply.Put? ==>
            SameElsewhere(before.value, reply.groups, alert) && Total(reply.groups, Locator("", alert)) == 0)
    case PatchIn(loc, c) => if before.None? then reply.NotFound? else PatchAnswer(before.value, loc, c, reply)
    case DeleteIn(loc) => if before.None? then reply.NotFound? else DropAnswer(before.value, loc, reply)
  }

  /** A rule to create carries the name it is created under. */
  predicate WellNamed(op: Op) {
    op.CreateOrReplace? ==> Named(op.rule, op.alert)
  }

  lemma ApplyMeans(op: Op, before: Resource)
    requires WellNamed(op)
    ensures Means(op, before, Apply(op, before))
  {
    match op
    case CreateOrReplace(alert, rule) =>
      var groups := if before.Some? then before.value else [];
      UpsertFrame(groups, alert, rule);
    case DeleteAlert(alert) => if before.Some? { RemoveFrame(before.value, alert); }
    case PatchIn(loc, c) => if before.Some? { PatchAnswers(before.value, loc, c); }
    case DeleteIn(loc) => if before.Some? { DropAnswers(before.value, loc); }
  }

  /** Every write in the log was one that its operation asks for. */
  ghost predicate LogAsked(ops: seq<Op>, initial: Resource, log: seq<Entry>) {
    log == [] ||
    var k := |log| - 1;
    && LogAsked(ops, initial, log[..k])
    && (log[k].Wrote? ==> log[k].writer < |ops| && Apply(ops[log[k].writer], Replay(ops, initial, log[..k])).Put?)
  }

  lemma StepAsked(ops: seq<Op>, initial: Server, w: World, a: Action)
    requires |ops| == |w.writers| && Inv(ops, initial, w) && LogAsked(ops, initial.resource, w.log)
    ensures LogAsked(ops, initial.resource, Step(ops, w, a).log)
  {
    var n := Step(ops, w, a);
    if n.log != w.log {
      assert n.log[..|n.log| - 1] == w.log;
      if a.Write? { assert WriterInv(ops, initial, w, a.writer); }
    }
  }

  lemma {:induction false} RunAsked(ops: seq<Op>, initial: Server, actions: seq<Action>)
    requires initial.version <= initial.used
    ensures LogAsked(ops, initial.resource, Run(ops, initial, actions).log)
  {
    if actions != [] {
      var k := |actions| - 1;
      RunAsked(ops, initial, actions[..k]);
      RunKeepsInv(ops, initial, actions[..k]);
      StepAsked(ops, initial, Run(ops, initial, actions[..k]), actions[k]);
    }
  }

  lemma {:induction false} AskedAt(ops: seq<Op>, initial: Resource, log: seq<Entry>, k: nat)
    requires LogAsked(ops, initial, log) && k < |log| && log[k].Wrote?
    ensures log[k].writer < |ops| && Apply(ops[log[k].writer], Replay(ops, initial, log[..k])).Put?
  {
    if k < |log| - 1 {
      var init := log[..|log| - 1];
      AskedAt(ops, initial, init, k);
      assert init[..k] == log[..k];
    }
  }

  /** For every interleaving and every write in its log: the resource after the write is the one before it
      with the writer's operation done to it, as the operation is meant. */
  lemma CommittedMeans(ops: seq<Op>, initial: Server, actions: seq<Action>, k: nat)
    requires initial.version <= initial.used && forall i :: 0 <= i < |ops| ==> WellNamed(ops[i])
    requires var log := Run(ops, initial, actions).log; k < |log| && log[k].Wrote?
    ensures var log := Run(ops, initial, actions).log;
            && log[k].writer < |ops|
            && Did(ops[log[k].writer], Replay(ops, initial.resource, log[..k]),
                   Replay(ops, initial.resource, log[..k + 1]))
  {
    RunAsked(ops, initial, actions);
    WriteDid(ops, initial.resource, Run(ops, initial, actions).log, k);
  }

  /** The operation, as it is meant, leads from one resource to the other. */
  ghost predicate Did(op: Op, before: Resource, after: Resource) {
    after.Some? && Means(op, before, Put(after.value))
  }

  lemma WriteDid(ops: seq<Op>, initial: Resource, log: seq<Entry>, k: nat)
    requires LogAsked(ops, initial, log) && k < |log| && log[k].Wrote?
    requires forall i :: 0 <= i < |ops| ==> WellNamed(ops[i])
    ensures log[k].writer < |ops|
    ensures Did(ops[log[k].writer], Replay(ops, initial, log[..k]), Replay(ops, initial, log[..k + 1]))
  {
    ReplayAt(ops, initial, log, k);
    DidApply(ops[log[k].writer], Replay(ops, initial, log[..k]));
  }

  lemma ReplayAt(ops: seq<Op>, initial: Resource, log: seq<Entry>, k: nat)
    requires LogAsked(ops, initial, log) && k < |log| && log[k].Wrote?
    ensures log[k].writer < |ops| && Apply(ops[log[k].writer], Replay(ops, initial, log[..k])).Put?
    ensures Replay(ops, initial, log[..k + 1])
         == Some(Apply(ops[log[k].writer], Replay(ops, initial, log[..k])).groups)
  {
    AskedAt(ops, initial, log, k);
    assert log[..k + 1][..k] == log[..k] && log[..k + 1][k] == log[k];
  }

  lemma DidApply(op: Op, before: Resource)
    requires WellNamed(op) && Apply(op, before).Put?
    ensures Did(op, before, Some(Apply(op, before).groups))
  {
    ApplyMeans(op, before);
  }

  /** A writer that is not disturbed between its read and its write gets its answer: its edit is committed, or
      it has nothing to write. */
  lemma UndisturbedAnswers(ops: seq<Op>, initial: Server, actions: seq<Action>, i: nat)
    requires i < |ops| && Run(ops, initial, actions).writers[i].Ready?
    ensures var w := Run(ops, initial, actions);
            var n := Run(ops, initial, actions + [Read(i), Write(i, Delivered)]);
            n.writers[i] == Finished(if Apply(ops[i], w.server.resource).Put? then Committed else Answered(|w.log|))
  {
    var w := Run(ops, initial, actions);
    var one, two := actions + [Read(i)], actions + [Read(i), Write(i, Delivered)];
    assert one[..|actions|] == actions && two[..|one|] == one;
    assert Run(ops, initial, one) == Step(ops, w, Read(i));
  }

  // ---------------------------------------------------------------- uniqueness over whole runs

  /** Create-or-replace and delete by alert name, with rules that carry that name. */
  predicate ByName(op: Op) {
    op.DeleteAlert? || (op.CreateOrReplace? && Named(op.rule, op.alert))
  }

  predicate ByLocator(op: Op) {
    op.PatchIn? || op.DeleteIn?
  }

  ghost predicate AlertsUnique(r: Resource) {
    r.Some? ==> UniqueAlerts(r.value)
  }

  ghost predicate GroupsUnique(r: Resource) {
    r.Some? ==> UniqueInGroups(r.value)
  }

  lemma ByNameKeepsUnique(op: Op, r: Resource)
    requires ByName(op) && AlertsUnique(r) && Apply(op, r).Put?
    ensures UniqueAlerts(Apply(op, r).groups)
  {
    match op
    case CreateOrReplace(alert, rule) =>
      var groups := if r.Some? then r.value else [];
      UpsertKeepsUnique(groups, alert, rule);
    case DeleteAlert(alert) => RemoveKeepsUnique(r.value, alert);
  }

  lemma ByLocatorKeepsUnique(op: Op, r: Resource)
    requires ByLocator(op) && GroupsUnique(r) && Apply(op, r).Put?
    ensures UniqueInGroups(Apply(op, r).groups)
  {
    match op
    case PatchIn(loc, c) => PatchKeepsUnique(r.value, loc, c);
    case DeleteIn(loc) => DropKeepsUnique(r.value, loc);
  }

  lemma {:induction false} ReplayKeepsUnique(ops: seq<Op>, initial: Resource, log: seq<Entry>)
    ensures (forall i :: 0 <= i < |ops| ==> ByName(ops[i])) && AlertsUnique(initial)
            ==> AlertsUnique(Replay(ops, initial, log))
    ensures (forall i :: 0 <= i < |ops| ==> ByLocator(ops[i])) && GroupsUnique(initial)
            ==> GroupsUnique(Replay(ops, initial, log))
  {
    if log != [] {
      var before, e := Replay(ops, initial, log[..|log| - 1]), log[|log| - 1];
      ReplayKeepsUnique(ops, initial, log[..|log| - 1]);
      if e.Wrote? && e.writer < |ops| && Apply(ops[e.writer], before).Put? {
        var op := ops[e.writer];
        if ByName(op) && AlertsUnique(before) { ByNameKeepsUnique(op, before); }
        if ByLocator(op) && GroupsUnique(before) { ByLocatorKeepsUnique(op, before); }
      }
    }
  }

  /** Whatever the interleaving and the conflicts: writers by alert name never make a second rule of
      one name, and located writers never make a second rule of one name in one group. */
  lemma RunKeepsUnique(ops: seq<Op>, initial: Server, actions: seq<Action>)
    requires initial.version <= initial.used
    ensures var r := Run(ops, initial, actions).server.resource;
            && ((forall i :: 0 <= i < |ops| ==> ByName(ops[i])) && AlertsUnique(initial.resource) ==> AlertsUnique(r))
            && ((forall i :: 0 <= i < |ops| ==> ByLocator(ops[i])) && GroupsUnique(initial.resource)
                ==> GroupsUnique(r))
  {
    RunKeepsInv(ops, initial, actions);
    ReplayKeepsUnique(ops, initial.resource, Run(ops, initial, actions).log);
  }
}
