/** Replay protection of signed relay requests: a skew check, then a nonce check under a lock, with
    a cache that evicts old nonces. Times are whole seconds. */
module RelayReplay {
  const SKEW := 300
  const MAX_NONCES := 10000
  const SWEEP_INTERVAL := 60

  /** `wellFormed`: every other field is present, the signed-at time and the signature decode.
      `authentic`: the signature verifies under some configured key. */
  datatype Request = Request(nonce: string, signedAt: int, wellFormed: bool, authentic: bool)

  datatype Cache = Cache(seen: map<string, int>, lastSweep: int)

  predicate Fresh(r: Request, now: int) {
    -SKEW <= now - r.signedAt <= SKEW
  }

  /** The request passes every check that does not involve the cache. */
  predicate Passes(r: Request, now: int) {
    r.nonce != "" && r.wellFormed && Fresh(r, now) && r.authentic
  }

  function Swept(seen: map<string, int>, cutoff: int): map<string, int> {
    map n | n in seen && seen[n] >= cutoff :: seen[n]
  }

  predicate SweepDue(c: Cache, now: int) {
    |c.seen| > MAX_NONCES && now - c.lastSweep > SWEEP_INTERVAL
  }

  /** The cache after a nonce it does not hold is recorded. */
  function Recorded(c: Cache, nonce: string, now: int): Cache {
    var d := c.(seen := c.seen[nonce := now]);
    if SweepDue(d, now) then Cache(Swept(d.seen, now - 2 * SKEW), now) else d
  }

  /** What recording does: the nonce is held from now on, and the others as before, except that past 10000
      entries, and once a minute, those from before the last ten minutes are dropped. */
  lemma RecordedMeans(c: Cache, nonce: string, now: int)
    requires nonce !in c.seen
    ensures var n, sweeps := Recorded(c, nonce, now), |c.seen| + 1 > 10000 && now - c.lastSweep > 60;
            && nonce in n.seen && n.seen[nonce] == now
            && n.lastSweep == (if sweeps then now else c.lastSweep)
            && (forall k :: k != nonce ==> (k in n.seen <==> k in c.seen && (sweeps ==> c.seen[k] >= now - 600)))
            && (forall k :: k != nonce && k in n.seen ==> n.seen[k] == c.seen[k])
  {
    assert c.seen[nonce := now].Keys == c.seen.Keys + {nonce};
  }

  class Verifier {
    const enabled: bool
    var seen: map<string, int>
    var lastSweep: int

    function State(): Cache
      reads this
    {
      Cache(seen, lastSweep)
    }

    constructor (enabled: bool, epoch: int)
      ensures this.enabled == enabled && State() == Cache(map[], epoch)
    {
      this.enabled := enabled;
      seen, lastSweep := map[], epoch;
    }

    /** Rejects a nonce it holds; otherwise records it and, when due, evicts old entries. */
    method CheckAndRecordNonce(nonce: string, now: int) returns (ok: bool)
      modifies this
      ensures ok <==> nonce !in old(seen)
      ensures State() == if ok then Recorded(old(State()), nonce, now) else old(State())
    {
      if nonce in seen {
        return false;
      }
      seen := seen[nonce := now];
      if |seen| > MAX_NONCES && now - lastSweep > SWEEP_INTERVAL {
        lastSweep := now;
        var cutoff := now - 2 * SKEW;
        ghost var full := seen;
        var todo := seen.Keys;
        while todo != {}
          invariant todo <= full.Keys && lastSweep == now
          invariant forall n :: n in seen <==> n in full && (n in todo || full[n] >= cutoff)
          invariant forall n :: n in seen ==> seen[n] == full[n]
          decreases todo
        {
          var n :| n in todo;
          todo := todo - {n};
          if seen[n] < cutoff {
            seen := seen - {n};
          }
        }
        assert seen == Swept(full, cutoff);
      }
      return true;
    }

    /** `checkedAt` and `lockedAt` are the clock readings of the skew check and under the lock. */
    method VerifyBody(r: Request, checkedAt: int, lockedAt: int) returns (ok: bool)
      modifies this
      ensures ok <==> && enabled && r.nonce != "" && r.wellFormed && r.authentic
                      && -300 <= checkedAt - r.signedAt <= 300 && r.nonce !in old(seen)
      ensures State() == if ok then Recorded(old(State()), r.nonce, lockedAt) else old(State())
    {
      if !enabled || r.nonce == "" || !r.wellFormed {
        return false;
      }
      var age := checkedAt - r.signedAt;
      if (if age < 0 then -age else age) > SKEW {
        return false;
      }
      if !r.authentic {
        return false;
      }
      ok := CheckAndRecordNonce(r.nonce, lockedAt);
    }
  }

  // ---------------------------------------------------------------- concurrent runs

  /** A request between its skew check and the lock. `sweeps` counts the evictions before the check. */
  datatype Call = Call(r: Request, checkedAt: int, sweeps: nat)

  datatype Accepted = Accepted(nonce: string, signedAt: int, checkedAt: int, lockedAt: int)

  /** `cutoff` is that of the latest eviction. */
  datatype World = World(now: int, cache: Cache, pending: seq<Call>, accepted: seq<Accepted>, sweeps: nat, cutoff: int)

  datatype Action = Tick(time: nat) | Check(r: Request) | Lock(call: nat)

  function Start(now: int, epoch: int): World {
    World(now, Cache(map[], epoch), [], [], 0, now - 2 * SKEW)
  }

  function Step(w: World, a: Action): World {
    match a
    case Tick(t) => w.(now := w.now + t)
    case Check(r) => if Passes(r, w.now) then w.(pending := w.pending + [Call(r, w.now, w.sweeps)]) else w
    case Lock(i) =>
      if i >= |w.pending| then w
      else
        var c := w.pending[i];
        var rest := w.pending[..i] + w.pending[i + 1..];
        if c.r.nonce in w.cache.seen then w.(pending := rest)
        else
          var sweeps := SweepDue(w.cache.(seen := w.cache.seen[c.r.nonce := w.now]), w.now);
          w.(cache := Recorded(w.cache, c.r.nonce, w.now), pending := rest,
             accepted := w.accepted + [Accepted(c.r.nonce, c.r.signedAt, c.checkedAt, w.now)],
             sweeps := if sweeps then w.sweeps + 1 else w.sweeps,
             cutoff := if sweeps then w.now - 2 * SKEW else w.cutoff)
  }

  /** A call that nothing overlaps, checked and locked at one time, does what the verifier does. */
  lemma CheckThenLock(w: World, r: Request)
    requires w.pending == []
    ensures var n := Step(Step(w, Check(r)), Lock(0));
            if r.nonce != "" && r.wellFormed && r.authentic && -300 <= w.now - r.signedAt <= 300
               && r.nonce !in w.cache.seen
            then n.cache == Recorded(w.cache, r.nonce, w.now)
                 && n.accepted == w.accepted + [Accepted(r.nonce, r.signedAt, w.now, w.now)]
            else n.cache == w.cache && n.accepted == w.accepted
  {
  }

  function Run(start: World, actions: seq<Action>): World {
    if actions == [] then start else Step(Run(start, actions[..|actions| - 1]), actions[|actions| - 1])
  }

  /** The call at the lock was checked after the latest eviction. */
  predicate Prompt(w: World, a: Action) {
    a.Lock? && a.call < |w.pending| ==> w.pending[a.call].sweeps == w.sweeps
  }

  predicate PromptRun(start: World, actions: seq<Action>) {
    actions == [] ||
    var k := |actions| - 1;
    PromptRun(start, actions[..k]) && Prompt(Run(start, actions[..k]), actions[k])
  }

  predicate NoReplay(w: World) {
    forall i, j :: 0 <= i < j < |w.accepted| ==>
      !(w.accepted[i].nonce == w.accepted[j].nonce && w.accepted[i].signedAt == w.accepted[j].signedAt)
  }

  /** An accepted request is still in the cache, or was locked before the latest cutoff; it was signed at
      most `ahead` seconds after its check. */
  predicate Remembered(w: World, a: Accepted, ahead: nat) {
    && a.signedAt - ahead <= a.checkedAt <= a.lockedAt <= w.now
    && (a.nonce in w.cache.seen ==> a.lockedAt <= w.cache.seen[a.nonce])
    && (a.nonce in w.cache.seen || a.lockedAt < w.cutoff)
  }

  predicate CallInv(w: World, c: Call, ahead: nat) {
    && Passes(c.r, c.checkedAt) && c.checkedAt <= w.now && c.sweeps <= w.sweeps
    && c.r.signedAt - ahead <= c.checkedAt
    && (c.sweeps == w.sweeps ==> w.cutoff <= c.checkedAt - 2 * SKEW)
  }

  predicate Inv(w: World, ahead: nat) {
    && w.cutoff <= w.now - 2 * SKEW
    && (forall n :: n in w.cache.seen ==> w.cache.seen[n] <= w.now)
    && (forall i :: 0 <= i < |w.pending| ==> CallInv(w, w.pending[i], ahead))
    && (forall i :: 0 <= i < |w.accepted| ==> Remembered(w, w.accepted[i], ahead))
  }

  /** A request that passes its check was signed at most `ahead` seconds after it. */
  predicate Early(w: World, a: Action, ahead: nat) {
    a.Check? && Passes(a.r, w.now) ==> a.r.signedAt - ahead <= w.now
  }

  lemma LockKeepsInv(w: World, i: nat, ahead: nat)
    requires Inv(w, ahead) && i < |w.pending|
    ensures Inv(Step(w, Lock(i)), ahead)
  {
    var n := Step(w, Lock(i));
    forall k | 0 <= k < |n.pending|
      ensures CallInv(n, n.pending[k], ahead)
    {
      assert CallInv(w, if k < i then w.pending[k] else w.pending[k + 1], ahead);
    }
    forall k | 0 <= k < |n.accepted|
      ensures Remembered(n, n.accepted[k], ahead)
    {
      if k < |w.accepted| {
        assert Remembered(w, w.accepted[k], ahead);
      } else {
        assert CallInv(w, w.pending[i], ahead);
      }
    }
  }

  lemma StepKeepsInv(w: World, a: Action, ahead: nat)
    requires Inv(w, ahead) && Early(w, a, ahead)
    ensures Inv(Step(w, a), ahead)
  {
    var n := Step(w, a);
    if a.Lock? {
      if a.call < |w.pending| { LockKeepsInv(w, a.call, ahead); }
    } else {
      forall k | 0 <= k < |n.accepted|
        ensures Remembered(n, n.accepted[k], ahead)
      {
        assert Remembered(w, w.accepted[k], ahead);
      }
      forall k | 0 <= k < |n.pending|
        ensures CallInv(n, n.pending[k], ahead)
      {
        if k < |w.pending| { assert CallInv(w, w.pending[k], ahead); }
      }
    }
  }

  /** A prompt lock never accepts a nonce and signed-at time that were accepted before. */
  lemma PromptLockIsSafe(w: World, i: nat)
    requires Inv(w, SKEW) && NoReplay(w) && Prompt(w, Lock(i))
    ensures NoReplay(Step(w, Lock(i)))
  {
    if i < |w.pending| && w.pending[i].r.nonce !in w.cache.seen {
      var c := w.pending[i];
      assert CallInv(w, c, SKEW);
      forall k | 0 <= k < |w.accepted|
        ensures !(w.accepted[k].nonce == c.r.nonce && w.accepted[k].signedAt == c.r.signedAt)
      {
        assert Remembered(w, w.accepted[k], SKEW);
      }
    }
  }

  /** With a clock that does not run backwards, and any number of overlapping calls: if no eviction
      falls between a call's skew check and its lock, no nonce is accepted twice with one signed-at
      time. Calls that do not overlap always satisfy this. */
  lemma {:induction false} PromptRunsAreSafe(now: int, epoch: int, actions: seq<Action>)
    requires PromptRun(Start(now, epoch), actions)
    ensures var w := Run(Start(now, epoch), actions); Inv(w, SKEW) && NoReplay(w)
  {
    if actions != [] {
      var k := |actions| - 1;
      PromptRunsAreSafe(now, epoch, actions[..k]);
      var w := Run(Start(now, epoch), actions[..k]);
      StepKeepsInv(w, actions[k], SKEW);
      if actions[k].Lock? { PromptLockIsSafe(w, actions[k].call); }
    }
  }

  // ---------------------------------------------------------------- bounded delays

  /** The lock comes at most `d` seconds after the skew check of the same call, and no request that
      passes is signed more than `ahead` seconds after its check. */
  predicate Within(w: World, a: Action, d: nat, ahead: nat) {
    && Early(w, a, ahead)
    && (a.Lock? && a.call < |w.pending| ==> w.now - w.pending[a.call].checkedAt <= d)
  }

  predicate RunWithin(start: World, actions: seq<Action>, d: nat, ahead: nat) {
    actions == [] ||
    var k := |actions| - 1;
    RunWithin(start, actions[..k], d, ahead) && Within(Run(start, actions[..k]), actions[k], d, ahead)
  }

  function Min(a: nat, b: nat): nat {
    if a <= b then a else b
  }

  lemma BoundedLockIsSafe(w: World, i: nat, d: nat, ahead: nat)
    requires Inv(w, ahead) && NoReplay(w) && Within(w, Lock(i), d, ahead) && d + ahead <= SKEW
    ensures NoReplay(Step(w, Lock(i)))
  {
    if i < |w.pending| && w.pending[i].r.nonce !in w.cache.seen {
      var c := w.pending[i];
      assert CallInv(w, c, ahead);
      forall k | 0 <= k < |w.accepted|
        ensures !(w.accepted[k].nonce == c.r.nonce && w.accepted[k].signedAt == c.r.signedAt)
      {
        assert Remembered(w, w.accepted[k], ahead);
      }
    }
  }

  /** Overlapping calls are safe when their delay and the lead of their signatures fit the skew. */
  lemma {:induction false} BoundedRunsAreSafe(now: int, epoch: int, actions: seq<Action>, d: nat, ahead: nat)
    requires RunWithin(Start(now, epoch), actions, d, ahead) && d + Min(ahead, SKEW) <= SKEW
    ensures var w := Run(Start(now, epoch), actions); Inv(w, Min(ahead, SKEW)) && NoReplay(w)
  {
    if actions != [] {
      var k := |actions| - 1;
      BoundedRunsAreSafe(now, epoch, actions[..k], d, ahead);
      var w := Run(Start(now, epoch), actions[..k]);
      StepKeepsInv(w, actions[k], Min(ahead, SKEW));
      if actions[k].Lock? { BoundedLockIsSafe(w, actions[k].call, d, Min(ahead, SKEW)); }
    }
  }

  /** From every start: if no request is signed more than `ahead` seconds in the future of its check, a
      bound on the time between skew check and lock excludes replays exactly when the two together do
      not exceed the skew. Past that, an eviction in between can forget a nonce whose signed-at time
      passed the check. */
  lemma DelayBoundIff(now: int, epoch: int, d: nat, ahead: nat)
    requires epoch <= now
    ensures (forall actions: seq<Action> ::
               RunWithin(Start(now, epoch), actions, d, ahead) ==> NoReplay(Run(Start(now, epoch), actions)))
            <==> d + Min(ahead, SKEW) <= SKEW
  {
    if d + Min(ahead, SKEW) <= SKEW {
      forall actions: seq<Action> | RunWithin(Start(now, epoch), actions, d, ahead)
        ensures NoReplay(Run(Start(now, epoch), actions))
      {
        BoundedRunsAreSafe(now, epoch, actions, d, ahead);
      }
    } else {
      var w := LateLockAcceptsReplay(now, epoch, d, ahead);
      var actions :| Run(Start(now, epoch), actions) == w && RunWithin(Start(now, epoch), actions, d, ahead);
      assert !NoReplay(Run(Start(now, epoch), actions));
    }
  }

  // ---------------------------------------------------------------- the condition is needed

  /** `w` is reached by a run that keeps the bounds. */
  ghost predicate Reachable(start: World, w: World, d: nat, ahead: nat) {
    exists actions :: Run(start, actions) == w && RunWithin(start, actions, d, ahead)
  }

  lemma Extend(start: World, w: World, a: Action, d: nat, ahead: nat) returns (n: World)
    requires Reachable(start, w, d, ahead) && Within(w, a, d, ahead)
    ensures n == Step(w, a) && Reachable(start, n, d, ahead)
  {
    n := Step(w, a);
    var actions :| Run(start, actions) == w && RunWithin(start, actions, d, ahead);
    var more := actions + [a];
    assert more[..|actions|] == actions;
    assert Run(start, more) == n && RunWithin(start, more, d, ahead);
  }

  function Name(n: nat): string {
    seq(n + 1, _ => 'x')
  }

  /** A request with a new nonce is checked and locked at once. */
  lemma Admit(start: World, w: World, r: Request, d: nat, ahead: nat) returns (n: World)
    requires Reachable(start, w, d, ahead) && w.pending == [] && Passes(r, w.now) && r.nonce !in w.cache.seen
    requires r.signedAt - ahead <= w.now
    ensures Reachable(start, n, d, ahead) && n.pending == [] && n.now == w.now
    ensures n.cache == Recorded(w.cache, r.nonce, w.now)
    ensures n.accepted == w.accepted + [Accepted(r.nonce, r.signedAt, w.now, w.now)]
  {
    n := Extend(start, w, Check(r), d, ahead);
    n := Extend(start, n, Lock(0), d, ahead);
  }

  lemma SweptNow(seen: map<string, int>, now: int)
    requires forall k :: k in seen ==> seen[k] == now
    ensures Swept(seen, now - 2 * SKEW) == seen
  {
  }

  lemma OneMore(seen: map<string, int>, nonce: string, now: int)
    requires nonce !in seen
    ensures |seen[nonce := now]| == |seen| + 1
  {
    assert seen[nonce := now].Keys == seen.Keys + {nonce};
  }

  /** Recording at one time only never evicts anything. */
  lemma RecordedNow(c: Cache, nonce: string, now: int)
    requires (forall k :: k in c.seen ==> c.seen[k] == now) && nonce !in c.seen && c.lastSweep <= now
    ensures var n := Recorded(c, nonce, now);
            && n.seen == c.seen[nonce := now] && |n.seen| == |c.seen| + 1 && n.lastSweep <= now
  {
    SweptNow(c.seen[nonce := now], now);
    OneMore(c.seen, nonce, now);
  }

  /** The cache can be filled with any number of nonces, all recorded at the start. The first of them is
      signed as far ahead as the bound allows. */
  lemma {:induction false} Fill(now: int, epoch: int, d: nat, ahead: nat, n: nat) returns (w: World)
    requires epoch <= now
    ensures Reachable(Start(now, epoch), w, d, ahead) && w.now == now && w.pending == [] && w.accepted != []
    ensures w.accepted[0] == Accepted("x", now + Min(ahead, SKEW), now, now)
    ensures w.cache.lastSweep <= now && |w.cache.seen| == n + 1
    ensures forall k :: k in w.cache.seen ==> w.cache.seen[k] == now && 0 < |k| <= n + 1 && k[0] == 'x'
  {
    var start := Start(now, epoch);
    if n == 0 {
      assert Run(start, []) == start && RunWithin(start, [], d, ahead);
      RecordedNow(start.cache, "x", now);
      w := Admit(start, start, Request("x", now + Min(ahead, SKEW), true, true), d, ahead);
    } else {
      var v := Fill(now, epoch, d, ahead, n - 1);
      assert Name(n) !in v.cache.seen;
      RecordedNow(v.cache, Name(n), now);
      w := Admit(start, v, Request(Name(n), now, true, true), d, ahead);
    }
  }

  /** A cache that is full of nonces, all recorded at one time. */
  ghost predicate Full(w: World, now: int) {
    && w.cache.lastSweep <= now && |w.cache.seen| > MAX_NONCES && "other" !in w.cache.seen
    && forall k :: k in w.cache.seen ==> w.cache.seen[k] == now
  }

  lemma Filled(now: int, epoch: int, d: nat, ahead: nat) returns (w: World)
    requires epoch <= now
    ensures Reachable(Start(now, epoch), w, d, ahead) && w.now == now && w.pending == [] && w.accepted != []
    ensures w.accepted[0] == Accepted("x", now + Min(ahead, SKEW), now, now) && Full(w, now)
  {
    w := Fill(now, epoch, d, ahead, MAX_NONCES);
    assert "other"[0] == 'o';
  }

  /** A replayed request passes its skew check at the last moment; then another request does. */
  lemma TwoPending(start: World, w: World, d: nat, ahead: nat) returns (n: World)
    requires Reachable(start, w, d, ahead) && w.pending == []
    ensures Reachable(start, n, d, ahead) && n.cache == w.cache && n.accepted == w.accepted
    ensures n.now == w.now + 2 * SKEW + 1 && |n.pending| == 2
    ensures n.pending[0].r == Request("x", w.now + Min(ahead, SKEW), true, true)
    ensures n.pending[0].checkedAt == w.now + Min(ahead, SKEW) + SKEW
    ensures n.pending[1].r == Request("other", n.now, true, true) && n.pending[1].checkedAt == n.now
  {
    var lead := Min(ahead, SKEW);
    n := Extend(start, w, Tick(lead + SKEW), d, ahead);
    n := Extend(start, n, Check(Request("x", w.now + lead, true, true)), d, ahead);
    n := Extend(start, n, Tick(SKEW + 1 - lead), d, ahead);
    n := Extend(start, n, Check(Request("other", n.now, true, true)), d, ahead);
  }

  /** Without that condition the promise fails from every start: an eviction between the skew check of a
      replayed request and its lock forgets the nonce, and the replay is accepted. */
  lemma LateLockAcceptsReplay(now: int, epoch: int, d: nat, ahead: nat) returns (w: World)
    requires epoch <= now && d + Min(ahead, SKEW) > SKEW
    ensures Reachable(Start(now, epoch), w, d, ahead) && !NoReplay(w)
  {
    var start := Start(now, epoch);
    w := Filled(now, epoch, d, ahead);
    w := TwoPending(start, w, d, ahead);
    var first := w.accepted;
    LateSweep(w, now);
    w := Extend(start, w, Lock(1), d, ahead);
    w := Extend(start, w, Lock(0), d, ahead);
    var last := w.accepted[|w.accepted| - 1];
    assert w.accepted[0] == first[0] && last.nonce == "x" && last.signedAt == first[0].signedAt;
  }

  lemma LateSweep(w: World, past: int)
    requires |w.pending| == 2 && w.now == past + 2 * SKEW + 1 && Full(w, past)
    requires w.pending[1].r.nonce == "other"
    ensures var n := Step(w, Lock(1));
            && "x" !in n.cache.seen && n.pending == w.pending[..1] && n.now == w.now
            && n.accepted[..|w.accepted|] == w.accepted
  {
    OneMore(w.cache.seen, "other", w.now);
  }
}
