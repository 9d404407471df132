/** What becomes of every event handed to the intake, over all interleavings: which are shed and why, and that
    the others are matched. The logs below look at nothing but the counter and the queues at the moment of each
    atomic operation. */
module IntakeFates {
  import opened AlertIntake

  /** An event handed over by an idle sender, and whether the counter with its bytes was within the limit. */
  datatype Ask = Ask(sender: nat, job: Job, fits: bool)

  datatype Fate = Over | Full | Room

  /** What was decided about an event: the limit was exceeded, or its shard was full or had room at its offer. */
  datatype Verdict = Verdict(sender: nat, job: Job, fate: Fate)

  predicate Takes(s: Intake, a: Action) {
    a.Send? && a.sender < |s.senders| && s.senders[a.sender].Idle?
  }

  predicate Offers(s: Intake, a: Action) {
    a.SenderStep? && a.sender < |s.senders| && s.senders[a.sender].Offering?
  }

  ghost function Asked(f: Setup, s: Intake, a: Action): seq<Ask> {
    if Takes(s, a) then [Ask(a.sender, a.job, s.bytes + a.job.size <= f.maxBytes)] else []
  }

  ghost function Decided(f: Setup, s: Intake, a: Action): seq<Verdict>
    requires Shaped(f, s)
  {
    if Takes(s, a) && s.bytes + a.job.size > f.maxBytes then [Verdict(a.sender, a.job, Over)]
    else if Offers(s, a) then
      var j := s.senders[a.sender].job;
      [Verdict(a.sender, j, if |s.queues[Shard(f, j)]| < f.perShard then Room else Full)]
    else []
  }

  ghost function Asks(f: Setup, senders: nat, actions: seq<Action>): seq<Ask>
    requires ValidSetup(f)
  {
    if actions == [] then []
    else
      var k := |actions| - 1;
      Asks(f, senders, actions[..k]) + Asked(f, Run(f, senders, actions[..k]), actions[k])
  }

  ghost function Verdicts(f: Setup, senders: nat, actions: seq<Action>): seq<Verdict>
    requires ValidSetup(f)
  {
    if actions == [] then []
    else
      var k := |actions| - 1;
      Verdicts(f, senders, actions[..k]) + Decided(f, Run(f, senders, actions[..k]), actions[k])
  }

  // ---------------------------------------------------------------- reading the logs

  function AsksOf(asks: seq<Ask>, i: nat): seq<Ask> {
    if asks == [] then []
    else
      var k := |asks| - 1;
      AsksOf(asks[..k], i) + if asks[k].sender == i then [asks[k]] else []
  }

  function VerdictsOf(vs: seq<Verdict>, i: nat): seq<Verdict> {
    if vs == [] then []
    else
      var k := |vs| - 1;
      VerdictsOf(vs[..k], i) + if vs[k].sender == i then [vs[k]] else []
  }

  /** The jobs that were offered to a shard with room. */
  function Admitted(vs: seq<Verdict>): seq<Job> {
    if vs == [] then []
    else
      var k := |vs| - 1;
      Admitted(vs[..k]) + if vs[k].fate.Room? then [vs[k].job] else []
  }

  function Turned(vs: seq<Verdict>): nat {
    if vs == [] then 0
    else
      var k := |vs| - 1;
      Turned(vs[..k]) + if vs[k].fate.Room? then 0 else 1
  }

  lemma OneAsk(asks: seq<Ask>, a: Ask, i: nat)
    ensures AsksOf(asks + [a], i) == AsksOf(asks, i) + if a.sender == i then [a] else []
  {
    assert (asks + [a])[..|asks|] == asks;
  }

  lemma OneVerdict(vs: seq<Verdict>, v: Verdict, i: nat)
    ensures VerdictsOf(vs + [v], i) == VerdictsOf(vs, i) + if v.sender == i then [v] else []
    ensures Admitted(vs + [v]) == Admitted(vs) + if v.fate.Room? then [v.job] else []
    ensures Turned(vs + [v]) == Turned(vs) + if v.fate.Room? then 0 else 1
  {
    assert (vs + [v])[..|vs|] == vs;
  }

  // ---------------------------------------------------------------- the fates

  /** The sender's event was let past the limit and is not offered yet. */
  predicate Open(x: Sender) {
    x.Passed? || x.Offering?
  }

  /** The sender's event was turned away and is not counted as shed yet. */
  function Uncounted(x: Sender): int {
    if x.OverBudget? || x.Rejected? || x.Refunding? || x.Shed? then 1 else 0
  }

  /** A sender's events were decided one after the other, but for the one it holds: an event is over the limit
      exactly when its own addition put the counter there. */
  predicate Settled(asks: seq<Ask>, vs: seq<Verdict>, x: Sender) {
    && |asks| == |vs| + (if Open(x) then 1 else 0)
    && (forall k :: 0 <= k < |vs| ==> vs[k].job == asks[k].job && (vs[k].fate.Over? <==> !asks[k].fits))
    && (Open(x) ==> asks[|vs|].job == x.job && asks[|vs|].fits)
  }

  ghost predicate FatesInv(s: Intake, asks: seq<Ask>, vs: seq<Verdict>) {
    && (forall i :: 0 <= i < |s.senders| ==> Settled(AsksOf(asks, i), VerdictsOf(vs, i), s.senders[i]))
    && s.admissions == Admitted(vs)
    && s.sheds + Sum(s.senders, Uncounted) == Turned(vs)
  }

  /** One more event, decided at once. */
  lemma SettleOver(asks: seq<Ask>, vs: seq<Verdict>, x: Sender, y: Sender, ask: Ask, v: Verdict)
    requires Settled(asks, vs, x) && !Open(x) && !Open(y) && v.job == ask.job && v.fate.Over? && !ask.fits
    ensures Settled(asks + [ask], vs + [v], y)
  {
  }

  /** One more event, which stays open. */
  lemma SettlePass(asks: seq<Ask>, vs: seq<Verdict>, x: Sender, y: Sender, ask: Ask)
    requires Settled(asks, vs, x) && !Open(x) && Open(y) && y.job == ask.job && ask.fits
    ensures Settled(asks + [ask], vs, y)
  {
  }

  /** The open event is decided. */
  lemma SettleOpen(asks: seq<Ask>, vs: seq<Verdict>, x: Sender, y: Sender, v: Verdict)
    requires Settled(asks, vs, x) && Open(x) && !Open(y) && v.job == x.job && !v.fate.Over?
    ensures Settled(asks, vs + [v], y)
  {
  }

  lemma SettleOffer(asks: seq<Ask>, vs: seq<Verdict>, k: nat, x: Sender, y: Sender, v: Verdict)
    requires Settled(AsksOf(asks, k), VerdictsOf(vs, k), x) && (v.sender != k ==> y == x)
    requires v.sender == k ==> Open(x) && !Open(y) && v.job == x.job && !v.fate.Over?
    ensures Settled(AsksOf(asks, k), VerdictsOf(vs + [v], k), y)
  {
    OneVerdict(vs, v, k);
    NothingAdded(AsksOf(asks, k), VerdictsOf(vs, k));
    if v.sender == k { SettleOpen(AsksOf(asks, k), VerdictsOf(vs, k), x, y, v); }
  }

  lemma NothingAdded(asks: seq<Ask>, vs: seq<Verdict>)
    ensures asks + [] == asks && vs + [] == vs
  {
  }

  /** Turned away over the limit. */
  lemma OverKeepsFates(f: Setup, s: Intake, i: nat, j: Job, asks: seq<Ask>, vs: seq<Verdict>)
    requires Shaped(f, s) && FatesInv(s, asks, vs) && i < |s.senders| && s.senders[i].Idle?
    requires s.bytes + j.size > f.maxBytes
    ensures FatesInv(Step(f, s, Send(i, j)), asks + [Ask(i, j, false)], vs + [Verdict(i, j, Over)])
  {
    var n, ask, v := Step(f, s, Send(i, j)), Ask(i, j, false), Verdict(i, j, Over);
    assert n.senders == s.senders[i := OverBudget(j)];
    SumUpdate(s.senders, i, OverBudget(j), Uncounted);
    forall k | 0 <= k < |n.senders|
      ensures Settled(AsksOf(asks + [ask], k), VerdictsOf(vs + [v], k), n.senders[k])
    {
      OneAsk(asks, ask, k);
      OneVerdict(vs, v, k);
      NothingAdded(AsksOf(asks, k), VerdictsOf(vs, k));
      if k == i { SettleOver(AsksOf(asks, k), VerdictsOf(vs, k), s.senders[k], n.senders[k], ask, v); }
    }
    OneVerdict(vs, v, i);
  }

  /** Let past the limit. */
  lemma PassKeepsFates(f: Setup, s: Intake, i: nat, j: Job, asks: seq<Ask>, vs: seq<Verdict>)
    requires Shaped(f, s) && FatesInv(s, asks, vs) && i < |s.senders| && s.senders[i].Idle?
    requires s.bytes + j.size <= f.maxBytes
    ensures FatesInv(Step(f, s, Send(i, j)), asks + [Ask(i, j, true)], vs)
  {
    var n, ask := Step(f, s, Send(i, j)), Ask(i, j, true);
    assert n.senders == s.senders[i := Passed(j)];
    SumUpdate(s.senders, i, Passed(j), Uncounted);
    forall k | 0 <= k < |n.senders|
      ensures Settled(AsksOf(asks + [ask], k), VerdictsOf(vs, k), n.senders[k])
    {
      OneAsk(asks, ask, k);
      NothingAdded(AsksOf(asks, k), VerdictsOf(vs, k));
      if k == i { SettlePass(AsksOf(asks, k), VerdictsOf(vs, k), s.senders[k], n.senders[k], ask); }
    }
  }

  lemma TakenKeepsFates(f: Setup, s: Intake, a: Action, asks: seq<Ask>, vs: seq<Verdict>)
    requires Shaped(f, s) && FatesInv(s, asks, vs) && Takes(s, a)
    ensures FatesInv(Step(f, s, a), asks + Asked(f, s, a), vs + Decided(f, s, a))
  {
    if s.bytes + a.job.size > f.maxBytes {
      OverKeepsFates(f, s, a.sender, a.job, asks, vs);
    } else {
      assert vs + [] == vs;
      PassKeepsFates(f, s, a.sender, a.job, asks, vs);
    }
  }

  /** What an offer leaves. */
  lemma OfferMoves(f: Setup, s: Intake, i: nat, wins: bool)
    requires Shaped(f, s) && i < |s.senders| && s.senders[i].Offering?
    ensures var n, j := StepSender(f, s, i, wins), s.senders[i].job;
            var room := |s.queues[Shard(f, j)]| < f.perShard;
            && n.sheds == s.sheds && n.senders == s.senders[i := if room then Idle else Rejected(j)]
            && n.admissions == s.admissions + if room then [j] else []
  {
  }

  lemma OfferKeepsFates(f: Setup, s: Intake, a: Action, asks: seq<Ask>, vs: seq<Verdict>)
    requires Shaped(f, s) && FatesInv(s, asks, vs) && Offers(s, a)
    ensures FatesInv(Step(f, s, a), asks + Asked(f, s, a), vs + Decided(f, s, a))
  {
    var n, v := Step(f, s, a), Decided(f, s, a)[0];
    OfferMoves(f, s, a.sender, a.wins);
    OneVerdict(vs, v, 0);
    OfferedKeepsFates(s, n, a.sender, v, asks, vs);
    assert asks + [] == asks;
  }

  lemma OfferedKeepsFates(s: Intake, n: Intake, i: nat, v: Verdict, asks: seq<Ask>, vs: seq<Verdict>)
    requires FatesInv(s, asks, vs) && i < |s.senders| && s.senders[i].Offering?
    requires v.sender == i && v.job == s.senders[i].job && !v.fate.Over? && n.sheds == s.sheds
    requires n.senders == s.senders[i := if v.fate.Room? then Idle else Rejected(v.job)]
    requires n.admissions == Admitted(vs + [v]) && Turned(vs + [v]) == Turned(vs) + if v.fate.Room? then 0 else 1
    ensures FatesInv(n, asks, vs + [v])
  {
    var x := if v.fate.Room? then Idle else Rejected(v.job);
    SumUpdate(s.senders, i, x, Uncounted);
    forall k | 0 <= k < |n.senders|
      ensures Settled(AsksOf(asks, k), VerdictsOf(vs + [v], k), n.senders[k])
    {
      SettleOffer(asks, vs, k, s.senders[k], n.senders[k], v);
    }
  }

  /** A sender goes on with what was decided, or with its open event. */
  predicate GoesOn(s: Intake, n: Intake, i: nat, x: Sender) {
    && i < |s.senders| && n.senders == s.senders[i := x] && n.admissions == s.admissions
    && (Open(x) <==> Open(s.senders[i])) && (Open(x) ==> x.job == s.senders[i].job)
    && n.sheds + Uncounted(x) == s.sheds + Uncounted(s.senders[i])
  }

  lemma GoingOnKeepsFates(s: Intake, n: Intake, i: nat, x: Sender, asks: seq<Ask>, vs: seq<Verdict>)
    requires FatesInv(s, asks, vs) && GoesOn(s, n, i, x)
    ensures FatesInv(n, asks, vs)
  {
    SumUpdate(s.senders, i, x, Uncounted);
    forall k | 0 <= k < |n.senders|
      ensures Settled(AsksOf(asks, k), VerdictsOf(vs, k), n.senders[k])
    {
      assert Settled(AsksOf(asks, k), VerdictsOf(vs, k), s.senders[k]);
    }
  }

  lemma OtherGoesOn(f: Setup, s: Intake, a: Action)
    requires Shaped(f, s) && a.SenderStep? && a.sender < |s.senders| && !Offers(s, a)
    ensures GoesOn(s, Step(f, s, a), a.sender, Step(f, s, a).senders[a.sender])
  {
  }

  /** Any other step decides nothing. */
  lemma OtherKeepsFates(f: Setup, s: Intake, a: Action, asks: seq<Ask>, vs: seq<Verdict>)
    requires Shaped(f, s) && FatesInv(s, asks, vs) && !Takes(s, a) && !Offers(s, a)
    ensures FatesInv(Step(f, s, a), asks + Asked(f, s, a), vs + Decided(f, s, a))
  {
    var n := Step(f, s, a);
    assert asks + [] == asks && vs + [] == vs;
    if a.SenderStep? && a.sender < |s.senders| {
      OtherGoesOn(f, s, a);
      GoingOnKeepsFates(s, n, a.sender, n.senders[a.sender], asks, vs);
    } else {
      assert n.senders == s.senders && n.admissions == s.admissions && n.sheds == s.sheds;
    }
  }

  lemma {:induction false} RunKeepsFates(f: Setup, senders: nat, actions: seq<Action>)
    requires ValidSetup(f)
    ensures FatesInv(Run(f, senders, actions), Asks(f, senders, actions), Verdicts(f, senders, actions))
  {
    if actions == [] {
      SumZero(Start(f, senders).senders, Uncounted);
    } else {
      var k := |actions| - 1;
      var s, a := Run(f, senders, actions[..k]), actions[k];
      var asks, vs := Asks(f, senders, actions[..k]), Verdicts(f, senders, actions[..k]);
      RunKeepsFates(f, senders, actions[..k]);
      if Takes(s, a) {
        TakenKeepsFates(f, s, a, asks, vs);
      } else if Offers(s, a) {
        OfferKeepsFates(f, s, a, asks, vs);
      } else {
        OtherKeepsFates(f, s, a, asks, vs);
      }
    }
  }

  /** Over all interleavings: the events of a sender are decided in the order it handed them over; one is turned
      away over the limit exactly when its own addition put the counter there, and otherwise exactly when its
      shard was full at its offer; the admissions are exactly the others, in the order of their offers; and once
      no sender is busy, as many are counted as shed as were turned away. */
  lemma EveryEventIsDecided(f: Setup, senders: nat, actions: seq<Action>)
    requires ValidSetup(f)
    ensures var s := Run(f, senders, actions);
            var asks, vs := Asks(f, senders, actions), Verdicts(f, senders, actions);
            && (forall i :: 0 <= i < senders ==> Settled(AsksOf(asks, i), VerdictsOf(vs, i), s.senders[i]))
            && s.admissions == Admitted(vs)
            && s.sheds <= Turned(vs)
            && ((forall x :: x in s.senders ==> x.Idle?) ==> s.sheds == Turned(vs))
  {
    RunKeepsFates(f, senders, actions);
    var s := Run(f, senders, actions);
    SumNonNegative(s.senders);
    if forall x :: x in s.senders ==> x.Idle? { SumZero(s.senders, Uncounted); }
  }

  lemma {:induction false} SumNonNegative(xs: seq<Sender>)
    ensures Sum(xs, Uncounted) >= 0
  {
    if xs != [] { SumNonNegative(xs[1..]); }
  }

  // ---------------------------------------------------------------- progress

  /** How many steps of its own a sender is from being idle, at most. */
  function Rank(x: Sender): nat {
    match x
    case Idle => 0
    case Reporting(_) => 1
    case Warning(_) => 2
    case Shed => 3
    case OverBudget(_) => 4
    case Refunding(_) => 4
    case Rejected(_) => 5
    case Offering(_) => 6
    case Passed(_) => 7
  }

  function OwnSteps(actions: seq<Action>, i: nat): nat {
    if actions == [] then 0
    else OwnSteps(actions[1..], i) + if actions[0].SenderStep? && actions[0].sender == i then 1 else 0
  }

  function WorkerSteps(actions: seq<Action>, k: nat): nat {
    if actions == [] then 0
    else WorkerSteps(actions[1..], k) + if actions[0] == WorkerStep(k) then 1 else 0
  }

  /** The state that any actions lead to from a given one. */
  ghost function From(f: Setup, s: Intake, actions: seq<Action>): (n: Intake)
    requires Shaped(f, s)
    ensures Shaped(f, n) && |n.senders| == |s.senders|
    decreases |actions|
  {
    if actions == [] then s else From(f, Step(f, s, actions[0]), actions[1..])
  }

  predicate Hands(a: Action, i: nat) {
    a.Send? && a.sender == i
  }

  /** A sender that is handed no further event is idle after at most seven steps of its own: no step waits for
      anyone. */
  lemma {:induction false} SendersFinish(f: Setup, s: Intake, actions: seq<Action>, i: nat)
    requires Shaped(f, s) && i < |s.senders| && forall a :: a in actions ==> !Hands(a, i)
    requires OwnSteps(actions, i) >= Rank(s.senders[i])
    ensures From(f, s, actions).senders[i].Idle?
    decreases |actions|
  {
    if actions != [] {
      var a := actions[0];
      var n := Step(f, s, a);
      assert a in actions;
      if a.SenderStep? && a.sender == i {
        assert Rank(n.senders[i]) < Rank(s.senders[i]) || s.senders[i].Idle?;
      } else {
        assert n.senders[i] == s.senders[i];
      }
      SendersFinish(f, n, actions[1..], i);
    }
  }

  /** The worker's steps from its place until it waits again. */
  function Busy(w: Worker): nat {
    match w
    case Waiting => 0
    case Matching(_) => 1
    case Released(_) => 2
    case Received(_) => 3
  }

  /** The job starts after `left` more steps of its worker: it is in the worker's hands, or at place `p` of the
      queue. */
  ghost predicate Coming(s: Intake, k: nat, j: Job, left: nat)
    requires k < |s.workers| == |s.queues|
  {
    || (left == 1 && s.workers[k] == Released(j))
    || (left == 2 && s.workers[k] == Received(j))
    || exists p :: 0 <= p < |s.queues[k]| && s.queues[k][p] == j && left == 4 * p + 3 + Busy(s.workers[k])
  }

  lemma OthersKeepComing(f: Setup, s: Intake, a: Action, k: nat, j: Job, left: nat)
    requires Shaped(f, s) && k < f.workers && Coming(s, k, j, left) && a != WorkerStep(k)
    ensures Coming(Step(f, s, a), k, j, left) && s.starts <= Step(f, s, a).starts
  {
    var n := Step(f, s, a);
    assert n.workers[k] == s.workers[k] && s.queues[k] <= n.queues[k];
    if p :| 0 <= p < |s.queues[k]| && s.queues[k][p] == j && left == 4 * p + 3 + Busy(s.workers[k]) {
      assert n.queues[k][p] == j;
    }
  }

  lemma OwnStepComes(f: Setup, s: Intake, k: nat, j: Job, left: nat)
    requires Shaped(f, s) && k < f.workers && Coming(s, k, j, left)
    ensures var n := Step(f, s, WorkerStep(k));
            && s.starts <= n.starts
            && if left == 1 then n.starts == s.starts + [j] else left > 1 && Coming(n, k, j, left - 1)
  {
    var n := Step(f, s, WorkerStep(k));
    if s.workers[k] != Released(j) || left != 1 {
      if s.workers[k] != Received(j) || left != 2 {
        var p :| 0 <= p < |s.queues[k]| && s.queues[k][p] == j && left == 4 * p + 3 + Busy(s.workers[k]);
        if s.workers[k].Waiting? {
          if p > 0 { assert n.queues[k][p - 1] == j; }
        } else {
          assert n.queues[k][p] == j;
        }
      }
    }
  }

  lemma {:induction false} StartsGrow(f: Setup, s: Intake, actions: seq<Action>)
    requires Shaped(f, s)
    ensures s.starts <= From(f, s, actions).starts
    decreases |actions|
  {
    if actions != [] { StartsGrow(f, Step(f, s, actions[0]), actions[1..]); }
  }

  /** Whatever else happens, a job at place `p` of a shard's queue has begun matching after enough steps of that
      shard's worker: at most four for each job before it and six for its own and for the one in hand. */
  lemma {:induction false} QueuedJobsStart(f: Setup, s: Intake, actions: seq<Action>, k: nat, j: Job, left: nat)
    requires Shaped(f, s) && k < f.workers && Coming(s, k, j, left) && WorkerSteps(actions, k) >= left
    ensures s.starts <= From(f, s, actions).starts && j in From(f, s, actions).starts[|s.starts|..]
    decreases |actions|
  {
    if actions == [] {
      assert false;
    } else {
      var a, n := actions[0], Step(f, s, actions[0]);
      StartsGrow(f, n, actions[1..]);
      if a != WorkerStep(k) {
        OthersKeepComing(f, s, a, k, j, left);
        QueuedJobsStart(f, n, actions[1..], k, j, left);
      } else {
        OwnStepComes(f, s, k, j, left);
        if left == 1 {
          assert From(f, n, actions[1..]).starts[|s.starts|] == j;
        } else {
          QueuedJobsStart(f, n, actions[1..], k, j, left - 1);
        }
      }
    }
  }
}
