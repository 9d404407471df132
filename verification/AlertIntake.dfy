/** The sharded intake of kubewatch events: concurrent senders, two atomic counters, one bounded
    queue and one worker per shard. Each atomic operation is a step of its own. */
module AlertIntake {
  /** An event to match: the key of the object it is about, the bytes it holds, and the rest. */
  datatype Job = Job(key: string, size: nat, payload: string)

  function LowerChar(c: char): char {
    if 'A' <= c <= 'Z' then c - 'A' + 'a' else c
  }

  function Lower(s: string): string {
    seq(|s|, i requires 0 <= i < |s| => LowerChar(s[i]))
  }

  /** The key of an object. */
  function ShardKey(kind: string, namespace: string, name: string): string {
    Lower(kind) + "/" + namespace + "/" + name
  }

  /** `route` stands for the FNV hash of a key modulo the number of shards; only that it is a
      function of the key matters. */
  datatype Setup = Setup(workers: nat, perShard: nat, maxBytes: nat, route: string -> nat)

  ghost predicate ValidSetup(f: Setup) {
    f.workers >= 1 && f.perShard >= 1 && forall key :: f.route(key) < f.workers
  }

  ghost function Shard(f: Setup, j: Job): (k: nat)
    requires ValidSetup(f)
    ensures k < f.workers
  {
    f.route(j.key)
  }

  /** What a sender read when it counted its shed: the count it would log, the number of that shed, and
      how many warnings had been logged. */
  datatype Note = Note(count: int, upTo: nat, after: nat)

  /** Where a sender is between two atomic operations. */
  datatype Sender =
    | Idle
    | OverBudget(job: Job)    // added its bytes, found the counter over the limit
    | Passed(job: Job)        // added its bytes within the limit
    | Offering(job: Job)      // counted itself waiting; about to offer the job
    | Rejected(job: Job)      // the shard was full
    | Refunding(job: Job)     // no longer counted waiting; about to take its bytes back
    | Shed                    // about to count the shed
    | Warning(note: Note)     // counted; about to decide on a warning
    | Reporting(note: Note)   // won the warning; about to take its count back and log it

  datatype Worker =
    | Waiting
    | Received(job: Job)      // still counted as waiting
    | Released(job: Job)      // its bytes are still counted
    | Matching(job: Job)

  /** `admissions` and `starts` list the jobs put on a queue and the jobs whose matching began.
      `warnings` counts the warnings logged, `reported` sums their counts, and `covered` is the number of
      the shed that the latest of them was logged for. */
  datatype Intake = Intake(
    bytes: int, depth: int,
    queues: seq<seq<Job>>, senders: seq<Sender>, workers: seq<Worker>,
    admissions: seq<Job>, starts: seq<Job>,
    sheds: nat, residual: int, reported: int, warnings: nat, covered: nat)

  datatype Action = Send(sender: nat, job: Job) | SenderStep(sender: nat, wins: bool) | WorkerStep(worker: nat)

  ghost predicate Shaped(f: Setup, s: Intake) {
    ValidSetup(f) && |s.queues| == |s.workers| == f.workers
  }

  ghost function StepSender(f: Setup, s: Intake, i: nat, wins: bool): (n: Intake)
    requires Shaped(f, s) && i < |s.senders|
    ensures Shaped(f, n) && |n.senders| == |s.senders|
  {
    match s.senders[i]
    case Idle => s
    case OverBudget(j) => s.(bytes := s.bytes - j.size, senders := s.senders[i := Shed])
    case Passed(j) => s.(depth := s.depth + 1, senders := s.senders[i := Offering(j)])
    case Offering(j) =>
      var k := Shard(f, j);
      if |s.queues[k]| < f.perShard
      then s.(queues := s.queues[k := s.queues[k] + [j]], senders := s.senders[i := Idle],
              admissions := s.admissions + [j])
      else s.(senders := s.senders[i := Rejected(j)])
    case Rejected(j) => s.(depth := s.depth - 1, senders := s.senders[i := Refunding(j)])
    case Refunding(j) => s.(bytes := s.bytes - j.size, senders := s.senders[i := Shed])
    case Shed =>
      var note := Note(s.residual + 1, s.sheds + 1, s.warnings);
      s.(residual := s.residual + 1, sheds := s.sheds + 1, senders := s.senders[i := Warning(note)])
    case Warning(note) => s.(senders := s.senders[i := if wins then Reporting(note) else Idle])
    case Reporting(note) =>
      s.(residual := s.residual - note.count, reported := s.reported + note.count, warnings := s.warnings + 1,
         covered := note.upTo, senders := s.senders[i := Idle])
  }

  function StepWorker(s: Intake, k: nat): (n: Intake)
    requires k < |s.workers| == |s.queues|
    ensures |n.workers| == |n.queues| == |s.workers| && n.senders == s.senders
  {
    match s.workers[k]
    case Waiting =>
      if s.queues[k] == [] then s
      else s.(queues := s.queues[k := s.queues[k][1..]],
              workers := s.workers[k := Received(s.queues[k][0])])
    case Received(j) => s.(depth := s.depth - 1, workers := s.workers[k := Released(j)])
    case Released(j) =>
      s.(bytes := s.bytes - j.size, workers := s.workers[k := Matching(j)], starts := s.starts + [j])
    case Matching(_) => s.(workers := s.workers[k := Waiting])
  }

  ghost function Step(f: Setup, s: Intake, a: Action): (n: Intake)
    requires Shaped(f, s)
    ensures Shaped(f, n) && |n.senders| == |s.senders|
  {
    match a
    case Send(i, j) =>
      if i < |s.senders| && s.senders[i].Idle? then
        var bytes := s.bytes + j.size;
        var next := if bytes > f.maxBytes then OverBudget(j) else Passed(j);
        s.(bytes := bytes, senders := s.senders[i := next])
      else s
    case SenderStep(i, wins) => if i < |s.senders| then StepSender(f, s, i, wins) else s
    case WorkerStep(k) => if k < |s.workers| then StepWorker(s, k) else s
  }

  function Start(f: Setup, senders: nat): Intake {
    Intake(0, 0, seq(f.workers, _ => []), seq(senders, _ => Idle), seq(f.workers, _ => Waiting), [], [],
           0, 0, 0, 0, 0)
  }

  ghost function Run(f: Setup, senders: nat, actions: seq<Action>): (s: Intake)
    requires ValidSetup(f)
    ensures Shaped(f, s) && |s.senders| == senders
  {
    if actions == [] then Start(f, senders)
    else Step(f, Run(f, senders, actions[..|actions| - 1]), actions[|actions| - 1])
  }

  // ---------------------------------------------------------------- sums

  function Sum<T>(s: seq<T>, w: T -> int): int {
    if s == [] then 0 else w(s[0]) + Sum(s[1..], w)
  }

  lemma {:induction false} SumUpdate<T>(s: seq<T>, i: nat, x: T, w: T -> int)
    requires i < |s|
    ensures Sum(s[i := x], w) == Sum(s, w) - w(s[i]) + w(x)
  {
    if i > 0 {
      assert s[i := x][1..] == s[1..][i - 1 := x];
      SumUpdate(s[1..], i - 1, x, w);
    }
  }

  lemma {:induction false} SumAppend<T>(s: seq<T>, x: T, w: T -> int)
    ensures Sum(s + [x], w) == Sum(s, w) + w(x)
  {
    if s == [] {
      assert [x][1..] == [];
    } else {
      assert (s + [x])[1..] == s[1..] + [x];
      SumAppend(s[1..], x, w);
    }
  }

  lemma {:induction false} SumZero<T>(s: seq<T>, w: T -> int)
    requires forall x :: x in s ==> w(x) == 0
    ensures Sum(s, w) == 0
  {
    if s != [] { SumZero(s[1..], w); }
  }

  lemma {:induction false} SumBound<T>(s: seq<T>, w: T -> int, limit: nat)
    requires forall x :: x in s ==> w(x) <= limit
    ensures Sum(s, w) <= |s| * limit
  {
    if s != [] {
      SumBound(s[1..], w, limit);
      assert |s| * limit == limit + |s[1..]| * limit;
    }
  }

  lemma {:induction false} SumCompare<T>(s: seq<T>, v: T -> int, w: T -> int)
    requires forall x :: x in s ==> v(x) <= w(x)
    ensures Sum(s, v) <= Sum(s, w)
  {
    if s != [] { SumCompare(s[1..], v, w); }
  }

  // ---------------------------------------------------------------- what each place counts for

  function Size(j: Job): int { j.size }

  function QueueBytes(q: seq<Job>): int { Sum(q, Size) }

  function QueueLength(q: seq<Job>): int { |q| }

  /** Bytes a sender has added to the counter and not yet given up. */
  function SenderBytes(s: Sender): int {
    match s
    case OverBudget(j) => j.size
    case Passed(j) => j.size
    case Offering(j) => j.size
    case Rejected(j) => j.size
    case Refunding(j) => j.size
    case _ => 0
  }

  /** The same, without senders that found the counter over the limit. */
  function PassedBytes(s: Sender): int {
    if s.OverBudget? then 0 else SenderBytes(s)
  }

  function SenderDepth(s: Sender): int {
    if s.Offering? || s.Rejected? then 1 else 0
  }

  function WorkerBytes(w: Worker): int {
    if w.Received? || w.Released? then w.job.size else 0
  }

  function WorkerDepth(w: Worker): int {
    if w.Received? then 1 else 0
  }

  /** Bytes of the jobs waiting in the shards. */
  function WaitingBytes(s: Intake): int { Sum(s.queues, QueueBytes) }

  function WaitingJobs(s: Intake): int { Sum(s.queues, QueueLength) }

  // ---------------------------------------------------------------- counters

  ghost predicate CountersInv(f: Setup, s: Intake) {
    && Shaped(f, s)
    && s.bytes == Sum(s.senders, SenderBytes) + WaitingBytes(s) + Sum(s.workers, WorkerBytes)
    && s.depth == Sum(s.senders, SenderDepth) + WaitingJobs(s) + Sum(s.workers, WorkerDepth)
    && Sum(s.senders, PassedBytes) + WaitingBytes(s) + Sum(s.workers, WorkerBytes) <= f.maxBytes
    && (forall k :: 0 <= k < |s.queues| ==> |s.queues[k]| <= f.perShard)
    && s.reported + s.residual == s.sheds
  }

  /** A sender that moves from one place to another changes the counters by the difference. */
  lemma SenderMoves(f: Setup, s: Intake, n: Intake, i: nat, x: Sender)
    requires CountersInv(f, s) && i < |s.senders| && n.senders == s.senders[i := x]
    requires n.queues == s.queues && n.workers == s.workers && n.reported + n.residual == n.sheds
    requires n.bytes == s.bytes + SenderBytes(x) - SenderBytes(s.senders[i])
    requires n.depth == s.depth + SenderDepth(x) - SenderDepth(s.senders[i])
    requires PassedBytes(x) <= PassedBytes(s.senders[i]) || n.bytes <= f.maxBytes
    ensures CountersInv(f, n)
  {
    SumUpdate(s.senders, i, x, SenderBytes);
    SumUpdate(s.senders, i, x, SenderDepth);
    SumUpdate(s.senders, i, x, PassedBytes);
    SumCompare(n.senders, PassedBytes, SenderBytes);
  }

  lemma SendKeepsCounters(f: Setup, s: Intake, i: nat, j: Job)
    requires CountersInv(f, s) && i < |s.senders|
    ensures CountersInv(f, Step(f, s, Send(i, j)))
  {
    var n := Step(f, s, Send(i, j));
    if s.senders[i].Idle? { SenderMoves(f, s, n, i, n.senders[i]); }
  }

  lemma OfferKeepsCounters(f: Setup, s: Intake, i: nat)
    requires CountersInv(f, s) && i < |s.senders| && s.senders[i].Offering?
    ensures CountersInv(f, StepSender(f, s, i, false))
  {
    var j := s.senders[i].job;
    var k := Shard(f, j);
    if |s.queues[k]| < f.perShard {
      SumUpdate(s.senders, i, Idle, SenderBytes);
      SumUpdate(s.senders, i, Idle, SenderDepth);
      SumUpdate(s.senders, i, Idle, PassedBytes);
      SumAppend(s.queues[k], j, Size);
      SumUpdate(s.queues, k, s.queues[k] + [j], QueueBytes);
      SumUpdate(s.queues, k, s.queues[k] + [j], QueueLength);
    } else {
      SenderMoves(f, s, StepSender(f, s, i, false), i, Rejected(j));
    }
  }

  predicate InIntake(x: Sender) {
    x.OverBudget? || x.Passed? || x.Rejected? || x.Refunding?
  }

  /** The steps of a sender that was turned away or let through. */
  lemma IntakeKeepsCounters(f: Setup, s: Intake, i: nat, wins: bool)
    requires CountersInv(f, s) && i < |s.senders| && InIntake(s.senders[i])
    ensures CountersInv(f, StepSender(f, s, i, wins))
  {
    var n := StepSender(f, s, i, wins);
    SenderMoves(f, s, n, i, n.senders[i]);
  }

  /** The steps of a sender that counts its shed. */
  lemma SheddingKeepsCounters(f: Setup, s: Intake, i: nat, wins: bool)
    requires CountersInv(f, s) && i < |s.senders| && (s.senders[i].Shed? || Noted(s.senders[i]))
    ensures CountersInv(f, StepSender(f, s, i, wins))
  {
    var n := StepSender(f, s, i, wins);
    SenderMoves(f, s, n, i, n.senders[i]);
  }

  lemma SenderKeepsCounters(f: Setup, s: Intake, i: nat, wins: bool)
    requires CountersInv(f, s) && i < |s.senders|
    ensures CountersInv(f, StepSender(f, s, i, wins))
  {
    match s.senders[i]
    case Idle =>
    case Offering(_) => OfferKeepsCounters(f, s, i);
    case Shed | Warning(_) | Reporting(_) => SheddingKeepsCounters(f, s, i, wins);
    case _ => IntakeKeepsCounters(f, s, i, wins);
  }

  /** A worker that moves from one place to another, taking the head of its queue or not. */
  lemma WorkerMoves(f: Setup, s: Intake, n: Intake, k: nat, w: Worker, q: seq<Job>)
    requires CountersInv(f, s) && k < |s.workers| && n.workers == s.workers[k := w] && n.queues == s.queues[k := q]
    requires n.senders == s.senders && n.reported + n.residual == n.sheds && |q| <= |s.queues[k]|
    requires QueueBytes(q) + WorkerBytes(w) - n.bytes == QueueBytes(s.queues[k]) + WorkerBytes(s.workers[k]) - s.bytes
    requires |q| + WorkerDepth(w) - n.depth == |s.queues[k]| + WorkerDepth(s.workers[k]) - s.depth
    requires n.bytes <= s.bytes
    ensures CountersInv(f, n)
  {
    SumUpdate(s.workers, k, w, WorkerBytes);
    SumUpdate(s.workers, k, w, WorkerDepth);
    SumUpdate(s.queues, k, q, QueueBytes);
    SumUpdate(s.queues, k, q, QueueLength);
  }

  lemma WorkerKeepsCounters(f: Setup, s: Intake, k: nat)
    requires CountersInv(f, s) && k < |s.workers|
    ensures CountersInv(f, Step(f, s, WorkerStep(k)))
  {
    var n := StepWorker(s, k);
    var q := s.queues[k];
    assert s.queues[k := q] == s.queues;
    if s.workers[k].Waiting? && q != [] {
      WorkerMoves(f, s, n, k, Received(q[0]), q[1..]);
    } else if !s.workers[k].Waiting? {
      WorkerMoves(f, s, n, k, n.workers[k], q);
    }
  }

  lemma {:induction false} RunKeepsCounters(f: Setup, senders: nat, actions: seq<Action>)
    requires ValidSetup(f)
    ensures CountersInv(f, Run(f, senders, actions))
  {
    if actions == [] {
      var s := Start(f, senders);
      SumZero(s.senders, SenderBytes);
      SumZero(s.senders, SenderDepth);
      SumZero(s.senders, PassedBytes);
      SumZero(s.workers, WorkerBytes);
      SumZero(s.workers, WorkerDepth);
      SumZero(s.queues, QueueBytes);
      SumZero(s.queues, QueueLength);
    } else {
      var k := |actions| - 1;
      RunKeepsCounters(f, senders, actions[..k]);
      var s := Run(f, senders, actions[..k]);
      match actions[k]
      case Send(i, j) => if i < |s.senders| { SendKeepsCounters(f, s, i, j); }
      case SenderStep(i, wins) => if i < |s.senders| { SenderKeepsCounters(f, s, i, wins); }
      case WorkerStep(w) => if w < |s.workers| { WorkerKeepsCounters(f, s, w); }
    }
  }

  lemma WaitingBounded(f: Setup, s: Intake)
    requires CountersInv(f, s)
    ensures WaitingBytes(s) <= f.maxBytes && WaitingJobs(s) <= f.workers * f.perShard
  {
    NonNegative(s.senders, PassedBytes);
    NonNegative(s.workers, WorkerBytes);
    SumBound(s.queues, QueueLength, f.perShard);
  }

  /** Over all interleavings, with shards sized as configured: waiting jobs never hold more bytes than
      the limit, whatever the counter reads meanwhile; they never outnumber the larger of the queue size
      and the number of workers; and the counts logged in warnings plus the residual count are the total
      number of sheds. */
  lemma BudgetHolds(f: Setup, size: nat, senders: nat, actions: seq<Action>)
    requires ValidSetup(f) && f.perShard == PerShard(size, f.workers)
    ensures var s := Run(f, senders, actions);
            && WaitingBytes(s) <= f.maxBytes
            && WaitingJobs(s) <= (if size > f.workers then size else f.workers)
            && s.reported + s.residual == s.sheds
  {
    RunKeepsCounters(f, senders, actions);
    WaitingBounded(f, Run(f, senders, actions));
    CapacityIsBounded(size, f.workers);
  }

  lemma {:induction false} NonNegative<T>(s: seq<T>, w: T -> int)
    requires forall x :: x in s ==> w(x) >= 0
    ensures Sum(s, w) >= 0
  {
    if s != [] { NonNegative(s[1..], w); }
  }

  /** No sender holds bytes or counts as waiting, no queue holds a job, no worker holds one back. */
  predicate Drained(s: Intake) {
    && (forall x :: x in s.senders ==> x.Idle? || x.Shed? || x.Warning? || x.Reporting?)
    && (forall q :: q in s.queues ==> q == [])
    && (forall w :: w in s.workers ==> w.Waiting? || w.Matching?)
  }

  lemma EmptyQueues(queues: seq<seq<Job>>)
    requires forall q :: q in queues ==> q == []
    ensures Sum(queues, QueueBytes) == 0 && Sum(queues, QueueLength) == 0
  {
    forall q | q in queues
      ensures QueueBytes(q) == 0 && QueueLength(q) == 0
    {
      assert q == [];
    }
    SumZero(queues, QueueBytes);
    SumZero(queues, QueueLength);
  }

  lemma DrainedCounters(f: Setup, s: Intake)
    requires CountersInv(f, s) && Drained(s)
    ensures s.bytes == 0 && s.depth == 0
  {
    SumZero(s.senders, SenderBytes);
    SumZero(s.senders, SenderDepth);
    SumZero(s.workers, WorkerBytes);
    SumZero(s.workers, WorkerDepth);
    EmptyQueues(s.queues);
  }

  /** When nothing is in flight and every queue is empty, both counters are back at zero. */
  lemma CountersDrain(f: Setup, senders: nat, actions: seq<Action>)
    requires ValidSetup(f) && Drained(Run(f, senders, actions))
    ensures Run(f, senders, actions).bytes == 0 && Run(f, senders, actions).depth == 0
  {
    RunKeepsCounters(f, senders, actions);
    DrainedCounters(f, Run(f, senders, actions));
  }

  /** How startKubewatchWorkers sizes a shard. */
  function PerShard(size: nat, workers: nat): (n: nat)
    requires workers >= 1
    ensures n >= 1
  {
    if size / workers < 1 then 1 else size / workers
  }

  /** The shards together hold at most the configured queue size, or one job each, and fewer than one job per
      shard is lost to rounding. */
  lemma CapacityIsBounded(size: nat, workers: nat)
    requires workers >= 1
    ensures workers * PerShard(size, workers) <= if size > workers then size else workers
    ensures workers * PerShard(size, workers) > size - workers
  {
    assert size - workers < workers * (size / workers) <= size;
  }

  // ---------------------------------------------------------------- order

  /** The jobs about one object, in order. */
  function About(jobs: seq<Job>, key: string): seq<Job> {
    if jobs == [] then []
    else About(jobs[..|jobs| - 1], key) + (if jobs[|jobs| - 1].key == key then [jobs[|jobs| - 1]] else [])
  }

  lemma {:induction false} AboutConcat(a: seq<Job>, b: seq<Job>, key: string)
    ensures About(a + b, key) == About(a, key) + About(b, key)
    decreases |b|
  {
    if b == [] {
      assert a + b == a;
    } else {
      var k := |b| - 1;
      assert (a + b)[..|a| + k] == a + b[..k];
      AboutConcat(a, b[..k], key);
    }
  }

  /** The job a worker took but has not begun to match. */
  function Taken(w: Worker): seq<Job> {
    if w.Received? || w.Released? then [w.job] else []
  }

  ghost predicate InShard(f: Setup, jobs: seq<Job>, k: nat)
    requires ValidSetup(f)
  {
    forall i :: 0 <= i < |jobs| ==> Shard(f, jobs[i]) == k
  }

  /** Every job is on the shard its key selects. */
  ghost predicate Placed(f: Setup, s: Intake) {
    && Shaped(f, s)
    && (forall k :: 0 <= k < f.workers ==> InShard(f, s.queues[k], k))
    && (forall k :: 0 <= k < f.workers && !s.workers[k].Waiting? ==> Shard(f, s.workers[k].job) == k)
  }

  /** For one object: what was admitted is what began, then what its worker took, then what waits. */
  predicate InOrder(admissions: seq<Job>, starts: seq<Job>, w: Worker, queue: seq<Job>, key: string) {
    About(admissions, key) == About(starts, key) + About(Taken(w), key) + About(queue, key)
  }

  ghost predicate Ordered(f: Setup, s: Intake, key: string)
    requires Shaped(f, s)
  {
    var k := f.route(key);
    InOrder(s.admissions, s.starts, s.workers[k], s.queues[k], key)
  }

  lemma PlacedStep(f: Setup, s: Intake, a: Action)
    requires Placed(f, s)
    ensures Placed(f, Step(f, s, a))
  {
  }

  lemma AboutOne(j: Job, key: string)
    ensures About([j], key) == if j.key == key then [j] else []
  {
    assert [j][..0] == [];
  }

  lemma Regroup(a: seq<Job>, b: seq<Job>, c: seq<Job>, d: seq<Job>)
    ensures a + b + c + d == a + b + (c + d)
    ensures a + [] + (b + c) == a + b + c
    ensures (a + b) + [] + c == a + b + c
  {
  }

  /** A job joins the queue of its own shard. */
  lemma JoinInOrder(admissions: seq<Job>, starts: seq<Job>, w: Worker, queue: seq<Job>, key: string, j: Job)
    requires InOrder(admissions, starts, w, queue, key)
    ensures InOrder(admissions + [j], starts, w, queue + [j], key)
  {
    AboutConcat(admissions, [j], key);
    AboutConcat(queue, [j], key);
    Regroup(About(starts, key), About(Taken(w), key), About(queue, key), About([j], key));
  }

  /** A job about another object is admitted elsewhere. */
  lemma OtherInOrder(admissions: seq<Job>, starts: seq<Job>, w: Worker, queue: seq<Job>, key: string, j: Job)
    requires InOrder(admissions, starts, w, queue, key) && j.key != key
    ensures InOrder(admissions + [j], starts, w, queue, key)
  {
    AboutConcat(admissions, [j], key);
    AboutOne(j, key);
    assert About(admissions, key) + [] == About(admissions, key);
  }

  /** The worker takes the head of its queue. */
  lemma TakeInOrder(admissions: seq<Job>, starts: seq<Job>, queue: seq<Job>, key: string)
    requires InOrder(admissions, starts, Waiting, queue, key) && queue != []
    ensures InOrder(admissions, starts, Received(queue[0]), queue[1..], key)
  {
    assert queue == [queue[0]] + queue[1..];
    AboutConcat([queue[0]], queue[1..], key);
    Regroup(About(starts, key), About([queue[0]], key), About(queue[1..], key), []);
  }

  /** The worker begins to match what it took. */
  lemma BeginInOrder(admissions: seq<Job>, starts: seq<Job>, j: Job, queue: seq<Job>, key: string)
    requires InOrder(admissions, starts, Released(j), queue, key)
    ensures InOrder(admissions, starts + [j], Matching(j), queue, key)
  {
    AboutConcat(starts, [j], key);
    Regroup(About(starts, key), About([j], key), About(queue, key), []);
  }

  /** Another worker's job begins. */
  lemma OtherBegins(admissions: seq<Job>, starts: seq<Job>, w: Worker, queue: seq<Job>, key: string, j: Job)
    requires InOrder(admissions, starts, w, queue, key) && j.key != key
    ensures InOrder(admissions, starts + [j], w, queue, key)
  {
    AboutConcat(starts, [j], key);
    AboutOne(j, key);
    assert About(starts, key) + [] == About(starts, key);
  }

  /** A step that admits, starts and moves nothing keeps the order. */
  lemma OrderFrame(f: Setup, s: Intake, n: Intake, key: string)
    requires Shaped(f, s) && Shaped(f, n) && Ordered(f, s, key)
    requires n.admissions == s.admissions && n.starts == s.starts && n.workers == s.workers && n.queues == s.queues
    ensures Ordered(f, n, key)
  {
  }

  lemma SenderMovesNothing(f: Setup, s: Intake, i: nat, wins: bool)
    requires Shaped(f, s) && i < |s.senders|
    requires s.senders[i].Offering? ==> |s.queues[Shard(f, s.senders[i].job)]| >= f.perShard
    ensures var n := StepSender(f, s, i, wins);
            n.admissions == s.admissions && n.starts == s.starts && n.workers == s.workers && n.queues == s.queues
  {
  }

  lemma AdmissionMoves(f: Setup, s: Intake, i: nat, wins: bool)
    requires Shaped(f, s) && i < |s.senders| && s.senders[i].Offering?
    requires |s.queues[Shard(f, s.senders[i].job)]| < f.perShard
    ensures var n, j, k := StepSender(f, s, i, wins), s.senders[i].job, Shard(f, s.senders[i].job);
            && n.admissions == s.admissions + [j] && n.starts == s.starts && n.workers == s.workers
            && n.queues == s.queues[k := s.queues[k] + [j]]
  {
  }

  lemma AdmissionKeepsOrder(f: Setup, s: Intake, n: Intake, j: Job, key: string)
    requires Shaped(f, s) && Shaped(f, n) && Ordered(f, s, key)
    requires n.admissions == s.admissions + [j] && n.starts == s.starts && n.workers == s.workers
    requires var k := Shard(f, j); n.queues == s.queues[k := s.queues[k] + [j]]
    ensures Ordered(f, n, key)
  {
    var k := f.route(key);
    if Shard(f, j) == k {
      JoinInOrder(s.admissions, s.starts, s.workers[k], s.queues[k], key, j);
    } else {
      OtherInOrder(s.admissions, s.starts, s.workers[k], s.queues[k], key, j);
    }
  }

  lemma SenderKeepsOrder(f: Setup, s: Intake, i: nat, wins: bool, key: string)
    requires Shaped(f, s) && Ordered(f, s, key) && i < |s.senders|
    ensures Ordered(f, StepSender(f, s, i, wins), key)
  {
    if s.senders[i].Offering? && |s.queues[Shard(f, s.senders[i].job)]| < f.perShard {
      AdmissionMoves(f, s, i, wins);
      AdmissionKeepsOrder(f, s, StepSender(f, s, i, wins), s.senders[i].job, key);
    } else {
      SenderMovesNothing(f, s, i, wins);
      OrderFrame(f, s, StepSender(f, s, i, wins), key);
    }
  }

  /** The worker of the object's own shard. */
  lemma OwnWorkerKeepsOrder(f: Setup, s: Intake, key: string)
    requires Shaped(f, s) && Ordered(f, s, key)
    ensures Ordered(f, StepWorker(s, f.route(key)), key)
  {
    var k := f.route(key);
    match s.workers[k]
    case Waiting => if s.queues[k] != [] { TakeInOrder(s.admissions, s.starts, s.queues[k], key); }
    case Released(j) => BeginInOrder(s.admissions, s.starts, j, s.queues[k], key);
    case _ =>
  }

  lemma OtherWorkerKeepsOrder(f: Setup, s: Intake, l: nat, key: string)
    requires Placed(f, s) && Ordered(f, s, key) && l < f.workers && l != f.route(key)
    ensures Ordered(f, StepWorker(s, l), key)
  {
    var k := f.route(key);
    if s.workers[l].Released? {
      OtherBegins(s.admissions, s.starts, s.workers[k], s.queues[k], key, s.workers[l].job);
    }
  }

  lemma OrderStep(f: Setup, s: Intake, a: Action, key: string)
    requires Placed(f, s) && Ordered(f, s, key)
    ensures Ordered(f, Step(f, s, a), key)
  {
    match a
    case Send(_, _) => OrderFrame(f, s, Step(f, s, a), key);
    case SenderStep(i, wins) => if i < |s.senders| { SenderKeepsOrder(f, s, i, wins, key); }
    case WorkerStep(k) =>
      if k < f.workers {
        if k == f.route(key) { OwnWorkerKeepsOrder(f, s, key); } else { OtherWorkerKeepsOrder(f, s, k, key); }
      }
  }

  lemma {:induction false} RunKeepsOrder(f: Setup, senders: nat, actions: seq<Action>, key: string)
    requires ValidSetup(f)
    ensures Placed(f, Run(f, senders, actions)) && Ordered(f, Run(f, senders, actions), key)
  {
    if actions != [] {
      var k := |actions| - 1;
      RunKeepsOrder(f, senders, actions[..k], key);
      PlacedStep(f, Run(f, senders, actions[..k]), actions[k]);
      OrderStep(f, Run(f, senders, actions[..k]), actions[k], key);
    }
  }

  /** Over all interleavings: the events of one object begin matching in the order they were
      admitted, none is skipped, and two events of one object are never in two workers' hands. */
  lemma PerObjectOrder(f: Setup, senders: nat, actions: seq<Action>, key: string)
    requires ValidSetup(f)
    ensures var s := Run(f, senders, actions);
            && About(s.starts, key) <= About(s.admissions, key)
            && forall k, l :: 0 <= k < l < f.workers && !s.workers[k].Waiting? && !s.workers[l].Waiting? ==>
                 s.workers[k].job.key != s.workers[l].job.key
  {
    RunKeepsOrder(f, senders, actions, key);
  }

  // ---------------------------------------------------------------- the logged counts

  predicate Noted(x: Sender) {
    x.Warning? || x.Reporting?
  }

  /** The step logs a warning. */
  predicate Logs(s: Intake, a: Action) {
    a.SenderStep? && a.sender < |s.senders| && s.senders[a.sender].Reporting?
  }

  /** A warning the step logs carries how many events were shed since the previous warning. */
  predicate Exact(s: Intake, a: Action) {
    Logs(s, a) ==> var note := s.senders[a.sender].note; note.count == note.upTo - s.covered
  }

  /** No warning was logged since the sender of this one counted its shed. */
  predicate Undisturbed(s: Intake, a: Action) {
    Logs(s, a) ==> s.senders[a.sender].note.after == s.warnings
  }

  /** A note is right as long as no further warning is logged, and too large afterwards. */
  predicate NoteInv(s: Intake, note: Note) {
    && note.count >= 1 && note.upTo <= s.sheds && note.after <= s.warnings
    && (note.after == s.warnings ==> note.count == note.upTo - s.covered)
    && (note.after < s.warnings ==> note.count > note.upTo - s.covered)
  }

  predicate NotesInv(s: Intake) {
    && s.reported == s.covered <= s.sheds && s.reported + s.residual == s.sheds
    && forall i :: 0 <= i < |s.senders| && Noted(s.senders[i]) ==> NoteInv(s, s.senders[i].note)
  }

  /** In a run without disturbed warnings so far, a warning is exact if and only if it is undisturbed. */
  lemma ExactWhenUndisturbed(s: Intake, a: Action)
    requires NotesInv(s)
    ensures Exact(s, a) <==> Undisturbed(s, a)
  {
    if Logs(s, a) { assert NoteInv(s, s.senders[a.sender].note); }
  }

  lemma LoggingKeepsNotes(f: Setup, s: Intake, i: nat, wins: bool)
    requires Shaped(f, s) && NotesInv(s) && i < |s.senders| && s.senders[i].Reporting?
    requires s.senders[i].note.after == s.warnings
    ensures NotesInv(StepSender(f, s, i, wins))
  {
    var n := StepSender(f, s, i, wins);
    assert NoteInv(s, s.senders[i].note);
    forall j | 0 <= j < |n.senders| && Noted(n.senders[j])
      ensures NoteInv(n, n.senders[j].note)
    {
      assert j != i && NoteInv(s, s.senders[j].note);
    }
  }

  lemma SenderKeepsNotes(f: Setup, s: Intake, i: nat, wins: bool)
    requires Shaped(f, s) && NotesInv(s) && i < |s.senders| && !s.senders[i].Reporting?
    ensures NotesInv(StepSender(f, s, i, wins))
  {
    var n := StepSender(f, s, i, wins);
    forall j | 0 <= j < |n.senders| && Noted(n.senders[j])
      ensures NoteInv(n, n.senders[j].note)
    {
      if j != i || s.senders[i].Warning? { assert NoteInv(s, s.senders[j].note); }
    }
  }

  lemma NotesStep(f: Setup, s: Intake, a: Action)
    requires Shaped(f, s) && NotesInv(s) && Undisturbed(s, a)
    ensures NotesInv(Step(f, s, a))
  {
    var n := Step(f, s, a);
    match a
    case SenderStep(i, wins) =>
      if i < |s.senders| {
        if s.senders[i].Reporting? { LoggingKeepsNotes(f, s, i, wins); } else { SenderKeepsNotes(f, s, i, wins); }
      }
    case _ =>
      forall j | 0 <= j < |n.senders| && Noted(n.senders[j])
        ensures NoteInv(n, n.senders[j].note)
      {
        assert NoteInv(s, s.senders[j].note);
      }
  }

  ghost predicate AllExact(f: Setup, senders: nat, actions: seq<Action>)
    requires ValidSetup(f)
  {
    actions == [] ||
    var k := |actions| - 1;
    AllExact(f, senders, actions[..k]) && Exact(Run(f, senders, actions[..k]), actions[k])
  }

  ghost predicate AllUndisturbed(f: Setup, senders: nat, actions: seq<Action>)
    requires ValidSetup(f)
  {
    actions == [] ||
    var k := |actions| - 1;
    AllUndisturbed(f, senders, actions[..k]) && Undisturbed(Run(f, senders, actions[..k]), actions[k])
  }

  /** Over all runs: every warning carries exactly the sheds since the previous one if and only if no
      warning is logged between the count and the log of another; and then the counts never exceed the
      sheds. */
  lemma {:induction false} WarningsExactIff(f: Setup, senders: nat, actions: seq<Action>)
    requires ValidSetup(f)
    ensures AllExact(f, senders, actions) <==> AllUndisturbed(f, senders, actions)
    ensures AllUndisturbed(f, senders, actions) ==>
              NotesInv(Run(f, senders, actions)) && Run(f, senders, actions).reported <= Run(f, senders, actions).sheds
  {
    if actions != [] {
      var k := |actions| - 1;
      var s := Run(f, senders, actions[..k]);
      WarningsExactIff(f, senders, actions[..k]);
      if AllUndisturbed(f, senders, actions[..k]) {
        ExactWhenUndisturbed(s, actions[k]);
        if Undisturbed(s, actions[k]) { NotesStep(f, s, actions[k]); }
      }
    }
  }

  ghost predicate Reachable(f: Setup, senders: nat, s: Intake)
    requires ValidSetup(f)
  {
    exists actions :: Run(f, senders, actions) == s
  }

  lemma Extend(f: Setup, senders: nat, s: Intake, a: Action) returns (n: Intake)
    requires ValidSetup(f) && Reachable(f, senders, s)
    ensures Shaped(f, s) && n == Step(f, s, a) && Reachable(f, senders, n)
  {
    var actions :| Run(f, senders, actions) == s;
    assert (actions + [a])[..|actions|] == actions;
    n := Step(f, s, a);
    assert Run(f, senders, actions + [a]) == n;
  }

  /** A sender whose event does not fit the budget counts its shed. */
  lemma ShedOne(f: Setup, s: Intake, i: nat) returns (n: Intake)
    requires ValidSetup(f) && Reachable(f, 2, s) && i < |s.senders| == 2 && s.senders[i].Idle? && s.bytes == 0
    ensures Reachable(f, 2, n) && n.bytes == 0 && n.warnings == s.warnings
    ensures n.sheds == s.sheds + 1 && n.residual == s.residual + 1 && n.reported == s.reported
    ensures n.senders == s.senders[i := Warning(Note(s.residual + 1, s.sheds + 1, s.warnings))]
  {
    n := Extend(f, 2, s, Send(i, Job("", f.maxBytes + 1, "")));
    n := Extend(f, 2, n, SenderStep(i, false));
    n := Extend(f, 2, n, SenderStep(i, false));
  }

  /** A sender that counted wins the interval and logs. */
  lemma LogOne(f: Setup, s: Intake, i: nat) returns (n: Intake)
    requires ValidSetup(f) && Reachable(f, 2, s) && i < |s.senders| == 2 && s.senders[i].Warning?
    ensures Reachable(f, 2, n) && n.sheds == s.sheds && n.senders == s.senders[i := Idle]
    ensures n.reported == s.reported + s.senders[i].note.count
  {
    n := Extend(f, 2, s, SenderStep(i, true));
    n := Extend(f, 2, n, SenderStep(i, true));
  }

  /** Otherwise warnings can count sheds twice: the sender of the first shed stalls after its count, the
      second logs both, and the first then logs its own again. */
  lemma WarningsCanOvercount(f: Setup) returns (s: Intake)
    requires ValidSetup(f)
    ensures Reachable(f, 2, s) && s.sheds == 2 && s.reported == 3
  {
    s := Start(f, 2);
    assert Run(f, 2, []) == s;
    s := ShedOne(f, s, 0);
    s := ShedOne(f, s, 1);
    s := LogOne(f, s, 1);
    s := LogOne(f, s, 0);
  }

  // ---------------------------------------------------------------- keys

  /** Events that name the same object, whatever the case of the kind, have the same key. */
  lemma SameObjectSameKey(kind: string, kind': string, namespace: string, name: string)
    requires |kind| == |kind'| && forall i :: 0 <= i < |kind| ==> LowerChar(kind[i]) == LowerChar(kind'[i])
    ensures ShardKey(kind, namespace, name) == ShardKey(kind', namespace, name)
  {
    assert Lower(kind) == Lower(kind');
  }

  lemma FirstSlash(a: string, x: string, b: string, y: string)
    requires '/' !in a && '/' !in b && a + "/" + x == b + "/" + y
    ensures a == b && x == y
  {
    var s, t := a + "/" + x, b + "/" + y;
    assert s[|a|] == '/' && t[|b|] == '/';
    assert forall i :: 0 <= i < |a| ==> s[i] == a[i] && a[i] in a;
    assert forall i :: 0 <= i < |b| ==> t[i] == b[i] && b[i] in b;
    assert |a| == |b|;
    assert a == s[..|a|] && b == t[..|b|] && x == s[|a| + 1..] && y == t[|b| + 1..];
  }

  /** Events about different objects have different keys: kinds, namespaces and names hold no slash. */
  lemma SameKeySameObject(kind: string, namespace: string, name: string, kind': string, namespace': string,
                          name': string)
    requires '/' !in kind && '/' !in namespace && '/' !in kind' && '/' !in namespace'
    requires ShardKey(kind, namespace, name) == ShardKey(kind', namespace', name')
    ensures Lower(kind) == Lower(kind') && namespace == namespace' && name == name'
  {
    LowerHasNoSlash(kind);
    LowerHasNoSlash(kind');
    Slashes(Lower(kind), namespace, name);
    Slashes(Lower(kind'), namespace', name');
    FirstSlash(Lower(kind), namespace + "/" + name, Lower(kind'), namespace' + "/" + name');
    FirstSlash(namespace, name, namespace', name');
  }

  lemma Slashes(a: string, b: string, c: string)
    ensures a + "/" + b + "/" + c == a + "/" + (b + "/" + c)
  {
  }

  lemma LowerHasNoSlash(s: string)
    requires '/' !in s
    ensures '/' !in Lower(s)
  {
    forall i | 0 <= i < |Lower(s)|
      ensures Lower(s)[i] != '/'
    {
      assert Lower(s)[i] == LowerChar(s[i]) && s[i] in s;
    }
  }
}
