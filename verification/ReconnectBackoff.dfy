/** The wait before the relay client reconnects: exponential, capped, with full jitter. Durations are
    64-bit integers that wrap around. */
module ReconnectBackoff {
  const MAX_INT64: int := 0x7FFF_FFFF_FFFF_FFFF
  const TWO_63: int := 0x8000_0000_0000_0000

  type Duration = d: int | -TWO_63 <= d < TWO_63

  function Pow2(n: nat): (p: nat)
    ensures p >= 1
  {
    if n == 0 then 1 else 2 * Pow2(n - 1)
  }

  function Min(a: int, b: int): int {
    if a <= b then a else b
  }

  function Max(a: int, b: int): int {
    if a >= b then a else b
  }

  /** The promised ceiling, in unbounded arithmetic: the base doubled `attempt` times, capped at the limit,
      and no wait at all when that is not positive. */
  function Promised(base: Duration, limit: Duration, attempt: nat): int {
    Max(0, Min(limit, base * Pow2(attempt)))
  }

  // ---------------------------------------------------------------- the loop

  /** Division by two that truncates toward zero. */
  function Half(d: int): int {
    if d >= 0 then d / 2 else -(-d / 2)
  }

  /** Doubling in 64 bits. */
  function Twice(d: Duration): Duration {
    if 2 * d < -TWO_63 then 2 * d + 2 * TWO_63
    else if 2 * d >= TWO_63 then 2 * d - 2 * TWO_63
    else 2 * d
  }

  /** The ceiling after up to `n` more turns of the loop. */
  function Turns(c: Duration, limit: Duration, n: nat): Duration
    decreases n
  {
    if n == 0 || c >= limit then c
    else if c > Half(limit) then limit
    else Turns(Twice(c), limit, n - 1)
  }

  function Ceiling(base: Duration, limit: Duration, attempt: nat): Duration {
    Turns(Min(base, limit), limit, attempt)
  }

  method CeilingLoop(base: Duration, limit: Duration, attempt: nat) returns (ceiling: Duration)
    ensures ceiling == Ceiling(base, limit, attempt)
  {
    ceiling := Min(base, limit);
    var i := 0;
    while i < attempt && ceiling < limit
      invariant 0 <= i <= attempt
      invariant Ceiling(base, limit, attempt) == Turns(ceiling, limit, attempt - i)
    {
      if ceiling > Half(limit) {
        ceiling := limit;
        break;
      }
      ceiling := Twice(ceiling);
      i := i + 1;
    }
  }

  /** A random wait of at most the ceiling; `randN(n)` draws from 0 up to but not including `n`. */
  method ReconnectWait(base: Duration, limit: Duration, attempt: nat, randN: int -> int) returns (wait: Duration)
    requires forall n :: 0 < n <= MAX_INT64 ==> 0 <= randN(n) < n
    ensures 0 <= wait <= Max(0, Ceiling(base, limit, attempt))
    ensures 0 < Ceiling(base, limit, attempt) < MAX_INT64 ==> wait == randN(Ceiling(base, limit, attempt) + 1)
  {
    var ceiling := CeilingLoop(base, limit, attempt);
    if ceiling <= 0 {
      return 0;
    }
    if ceiling == MAX_INT64 {
      return randN(MAX_INT64);
    }
    return randN(ceiling + 1);
  }

  // ---------------------------------------------------------------- when the promise is kept

  lemma DoubleOnce(c: int, n: nat)
    requires n > 0
    ensures c * Pow2(n) == (2 * c) * Pow2(n - 1)
  {
  }

  lemma {:induction false} GrowsPast(c: int, limit: int, n: nat)
    requires c >= limit && c >= 0
    ensures c * Pow2(n) >= limit
    decreases n
  {
    if n > 0 {
      DoubleOnce(c, n);
      GrowsPast(2 * c, limit, n - 1);
    }
  }

  /** From a ceiling that is not negative, the loop keeps the promise and never wraps around. */
  lemma {:induction false} TurnsKeepPromise(c: Duration, limit: Duration, n: nat)
    requires 0 <= c <= limit
    ensures Turns(c, limit, n) == Min(limit, c * Pow2(n))
    decreases n
  {
    if c >= limit {
      GrowsPast(c, limit, n);
    } else if n > 0 {
      DoubleOnce(c, n);
      if c > Half(limit) {
        GrowsPast(2 * c, limit, n - 1);
      } else {
        TurnsKeepPromise(2 * c, limit, n - 1);
      }
    }
  }

  predicate MinusPow2(c: int, k: nat) {
    c + Pow2(k) == 0
  }

  /** Minus a power of two, or zero: doubling it in 64 bits never gives a positive number. */
  ghost predicate Vanishes(c: int) {
    c == 0 || exists k: nat :: MinusPow2(c, k)
  }

  lemma {:induction false} Pow2Monotone(m: nat, n: nat)
    requires m <= n
    ensures Pow2(m) <= Pow2(n)
  {
    if m < n { Pow2Monotone(m, n - 1); }
  }

  lemma Pow63()
    ensures Pow2(62) == TWO_63 / 2 && Pow2(63) == TWO_63
  {
    assert Pow2(8) == 256;
    assert Pow2(16) == 65536;
    assert Pow2(24) == 0x100_0000;
    assert Pow2(32) == 0x1_0000_0000;
    assert Pow2(40) == 0x100_0000_0000;
    assert Pow2(48) == 0x1_0000_0000_0000;
    assert Pow2(56) == 0x100_0000_0000_0000;
  }

  lemma DoubledVanishes(c: Duration)
    requires Vanishes(c)
    ensures Vanishes(Twice(c)) && Twice(c) <= 0
  {
    if c != 0 {
      var k: nat :| MinusPow2(c, k);
      Pow63();
      if k <= 62 {
        Pow2Monotone(k, 62);
        assert MinusPow2(2 * c, k + 1);
      } else {
        Pow2Monotone(63, k);
      }
    }
  }

  lemma {:induction false} TurnsStayNegative(c: Duration, limit: Duration, n: nat)
    requires Vanishes(c)
    ensures Turns(c, limit, n) <= 0
    decreases n
  {
    DoubledVanishes(c);
    if n > 0 && c < limit && c <= Half(limit) {
      TurnsStayNegative(Twice(c), limit, n - 1);
    }
  }

  /** Any other negative number wraps around to a positive one. */
  lemma {:induction false} BecomesPositive(c: Duration, limit: Duration) returns (n: nat)
    requires c < 0 && c < limit && !Vanishes(c)
    ensures Turns(c, limit, n) > 0
    decreases c + TWO_63
  {
    if 2 * c < -TWO_63 {
      Pow63();
      assert c != -TWO_63 by { assert MinusPow2(-TWO_63, 63); }
      n := 1;
    } else {
      if Vanishes(2 * c) {
        var k: nat :| MinusPow2(2 * c, k);
        assert MinusPow2(c, k - 1);
      }
      var m := BecomesPositive(2 * c, limit);
      n := m + 1;
    }
  }

  lemma NonNegativeBase(base: Duration, limit: Duration, attempt: nat)
    requires base >= 0
    ensures Max(0, Ceiling(base, limit, attempt)) == Promised(base, limit, attempt)
  {
    if limit >= 0 { TurnsKeepPromise(Min(base, limit), limit, attempt); }
    if base > limit { GrowsPast(base, limit, attempt); }
  }

  lemma NothingPromised(base: Duration, limit: Duration, attempt: nat)
    requires base < 0
    ensures Promised(base, limit, attempt) == 0
  {
    assert base * Pow2(attempt) <= 0;
  }

  /** For every configured base and limit, the ceiling is the promised one at every attempt if and only if
      the base is not negative, or not below the limit, or minus a power of two. A negative base below the
      limit otherwise wraps around to a positive wait. */
  lemma PromiseKeptIff(base: Duration, limit: Duration)
    ensures (forall attempt: nat :: Max(0, Ceiling(base, limit, attempt)) == Promised(base, limit, attempt))
            <==> base >= 0 || limit <= base || Vanishes(base)
  {
    if base >= 0 {
      forall attempt: nat
        ensures Max(0, Ceiling(base, limit, attempt)) == Promised(base, limit, attempt)
      {
        NonNegativeBase(base, limit, attempt);
      }
    } else if limit <= base || Vanishes(base) {
      forall attempt: nat
        ensures Max(0, Ceiling(base, limit, attempt)) == Promised(base, limit, attempt)
      {
        NothingPromised(base, limit, attempt);
        if limit > base { TurnsStayNegative(base, limit, attempt); }
      }
    } else {
      var n := BecomesPositive(base, limit);
      NothingPromised(base, limit, n);
      assert Max(0, Ceiling(base, limit, n)) != Promised(base, limit, n);
    }
  }

  // ---------------------------------------------------------------- runs

  /** The reconnect after session `k` is number `a`: the last `a` sessions were short, and the one
      before them held, or was the first of all. */
  predicate IsAttempt(held: seq<bool>, k: nat, a: nat)
    requires k < |held|
  {
    a <= k && (forall j :: k - a < j <= k ==> !held[j]) && (a < k ==> held[k - a])
  }

  /** `c` is the ceiling of the one attempt that the reconnect after session `k` is. */
  ghost predicate IsCeiling(base: Duration, limit: Duration, held: seq<bool>, k: nat, c: Duration)
    requires k < |held|
  {
    && (exists a :: IsAttempt(held, k, a))
    && (forall a :: IsAttempt(held, k, a) ==> c == Ceiling(base, limit, a))
  }

  /** The ceiling before each reconnect of a run; `held[k]` says that session `k` stayed connected for
      the limit or longer. */
  method RunCeilings(base: Duration, limit: Duration, held: seq<bool>) returns (ceilings: seq<Duration>)
    ensures |ceilings| == |held|
    ensures forall k :: 0 <= k < |held| ==> IsCeiling(base, limit, held, k, ceilings[k])
  {
    var attempt := 0;
    ceilings := [];
    for k := 0 to |held|
      invariant |ceilings| == k && if k == 0 then attempt == 0 else attempt > 0 && IsAttempt(held, k - 1, attempt - 1)
      invariant forall j :: 0 <= j < k ==> IsCeiling(base, limit, held, j, ceilings[j])
    {
      if held[k] {
        attempt := 0;
      }
      assert IsAttempt(held, k, attempt);
      forall a | IsAttempt(held, k, a) ensures a == attempt { AttemptUnique(held, k, a, attempt); }
      var c := CeilingLoop(base, limit, attempt);
      assert IsCeiling(base, limit, held, k, c);
      ceilings := ceilings + [c];
      attempt := attempt + 1;
    }
  }

  lemma AttemptUnique(held: seq<bool>, k: nat, a: nat, b: nat)
    requires k < |held| && IsAttempt(held, k, a) && IsAttempt(held, k, b)
    ensures a == b
  {
  }
}
