/** Plain decimal numbers, read the fast way. Values are exact rationals. */
module FastFloat {
  import opened Options
  import opened Utf8

  const ZERO: Byte := 0x30
  const NINE: Byte := 0x39
  const PLUS: Byte := 0x2B
  const MINUS: Byte := 0x2D
  const DOT: Byte := 0x2E

  predicate IsDigit(b: Byte) {
    ZERO <= b <= NINE
  }

  predicate AllDigits(s: Bytes) {
    forall i :: 0 <= i < |s| ==> IsDigit(s[i])
  }

  /** The length of the leading run of digits. */
  function Run(s: Bytes): (n: nat)
    ensures n <= |s| && AllDigits(s[..n]) && (n < |s| ==> !IsDigit(s[n]))
  {
    if s == [] || !IsDigit(s[0]) then 0 else 1 + Run(s[1..])
  }

  function Number(s: Bytes): nat
    requires AllDigits(s)
  {
    if s == [] then 0 else Number(s[..|s| - 1]) * 10 + (s[|s| - 1] - ZERO)
  }

  function Pow10(n: nat): (p: nat)
    ensures p >= 1
  {
    if n == 0 then 1 else 10 * Pow10(n - 1)
  }

  function Unsigned(s: Bytes): Bytes {
    if s != [] && (s[0] == PLUS || s[0] == MINUS) then s[1..] else s
  }

  /** Digits, and optionally a dot with more digits. */
  predicate PlainBody(s: Bytes) {
    var n := Run(s);
    n > 0 && (n == |s| || (s[n] == DOT && n + 1 < |s| && Run(s[n + 1..]) == |s| - n - 1))
  }

  function Fraction(s: Bytes): (f: Bytes)
    requires PlainBody(s)
    ensures AllDigits(f)
  {
    var n := Run(s);
    if n == |s| then [] else
      assert s[n + 1..][..|s| - n - 1] == s[n + 1..];
      s[n + 1..]
  }

  /** All the digits, divided by ten for every digit behind the dot. */
  function Magnitude(s: Bytes): real
    requires PlainBody(s)
  {
    Ratio(s[..Run(s)] + Fraction(s), |Fraction(s)|)
  }

  function Ratio(digits: Bytes, decimals: nat): real
    requires AllDigits(digits)
  {
    Number(digits) as real / Pow10(decimals) as real
  }

  /** An optional sign and a plain body. */
  predicate Plain(s: Bytes) {
    PlainBody(Unsigned(s))
  }

  /** The number written. */
  function Value(s: Bytes): real
    requires Plain(s)
  {
    if s[0] == MINUS then -Magnitude(Unsigned(s)) else Magnitude(Unsigned(s))
  }

  lemma {:induction false} NumberBound(s: Bytes)
    requires AllDigits(s)
    ensures Number(s) < Pow10(|s|)
  {
    if s != [] { NumberBound(s[..|s| - 1]); }
  }

  lemma Shifted(x: nat, p: nat, y: nat, d: int)
    ensures (x * p + y) * 10 + d == x * (10 * p) + (y * 10 + d)
  {
  }

  lemma {:induction false} NumberConcat(a: Bytes, b: Bytes)
    requires AllDigits(a) && AllDigits(b)
    ensures AllDigits(a + b) && Number(a + b) == Number(a) * Pow10(|b|) + Number(b)
    decreases |b|
  {
    if b == [] {
      assert a + b == a;
    } else {
      var k := |b| - 1;
      var s, d := a + b, b[k] - ZERO;
      assert s[..|a| + k] == a + b[..k] && s[|a| + k] == b[k];
      NumberConcat(a, b[..k]);
      assert AllDigits(s);
      assert Number(s) == Number(a + b[..k]) * 10 + d && Number(b) == Number(b[..k]) * 10 + d;
      Shifted(Number(a), Pow10(k), Number(b[..k]), d);
    }
  }

  lemma {:induction false} Pow10Monotone(m: nat, n: nat)
    requires m <= n
    ensures Pow10(m) <= Pow10(n)
  {
    if m < n { Pow10Monotone(m, n - 1); }
  }

  const INT64_SAFE := 1_000_000_000_000_000_000

  lemma Pow18()
    ensures Pow10(18) == INT64_SAFE
  {
    assert Pow10(4) == 10000;
    assert Pow10(8) == 100000000;
    assert Pow10(12) == 1000000000000;
    assert Pow10(16) == 10000000000000000;
  }

  lemma NumberSmall(s: Bytes)
    requires AllDigits(s) && |s| <= 18
    ensures Number(s) < INT64_SAFE
  {
    NumberBound(s);
    Pow10Monotone(|s|, 18);
    Pow18();
  }

  lemma NumberSnoc(b: Bytes, start: nat, i: nat)
    requires start <= i < |b| && AllDigits(b[start..i]) && IsDigit(b[i])
    ensures AllDigits(b[start..i + 1]) && Number(b[start..i + 1]) == Number(b[start..i]) * 10 + (b[i] - ZERO)
  {
    assert b[start..i + 1][..i - start] == b[start..i];
    assert b[start..i + 1] == b[start..i] + [b[i]];
  }

  /** Reads the digits from `i` on. The accumulator of at most 18 digits stays below 10^18, so it
      fits a 64-bit integer. */
  method ReadDigits(b: Bytes, start: nat) returns (acc: nat, i: nat)
    requires start <= |b| <= 18
    ensures i == start + Run(b[start..]) <= |b|
    ensures AllDigits(b[start..i]) && acc == Number(b[start..i]) < INT64_SAFE
  {
    acc, i := 0, start;
    while i < |b| && IsDigit(b[i])
      invariant start <= i <= |b|
      invariant AllDigits(b[start..i]) && acc == Number(b[start..i]) < INT64_SAFE
      invariant start + Run(b[start..]) == i + Run(b[i..])
    {
      NumberSnoc(b, start, i);
      assert b[i..][1..] == b[i + 1..];
      acc := acc * 10 + (b[i] - ZERO);
      i := i + 1;
      NumberSmall(b[start..i]);
    }
    assert b[start..][..i - start] == b[start..i];
  }

  lemma WholeRatio(digits: Bytes)
    requires AllDigits(digits)
    ensures Ratio(digits, 0) == Number(digits) as real
  {
    assert Pow10(0) == 1;
  }

  lemma WholeNumber(b: Bytes)
    requires b != [] && Run(b) == |b|
    ensures PlainBody(b) && AllDigits(b) && Magnitude(b) == Number(b) as real
  {
    assert b[..|b|] == b && b + [] == b;
    assert Fraction(b) == [];
    WholeRatio(b);
  }

  method ParseBody(b: Bytes) returns (r: Option<real>)
    requires |b| <= 18
    ensures r == if PlainBody(b) then Some(Magnitude(b)) else None
  {
    assert b[0..] == b;
    var intPart, n := ReadDigits(b, 0);
    assert b[0..n] == b[..n];
    if n == 0 {
      return None;
    }
    if n == |b| {
      WholeNumber(b);
      assert b[..n] == b;
      return Some(intPart as real);
    }
    if b[n] != DOT {
      return None;
    }
    var frac, k := ReadDigits(b, n + 1);
    if k != |b| || k == n + 1 {
      return None;
    }
    assert b[n + 1..k] == b[n + 1..];
    Combine(b[..n], b[n + 1..]);
    return Some(intPart as real + frac as real / Pow10(k - (n + 1)) as real);
  }

  /** Parses plain decimals of at most 18 bytes, and declines everything else. */
  method Parse(b: Bytes) returns (r: Option<real>)
    ensures r == if |b| <= 18 && Plain(b) then Some(Value(b)) else None
  {
    if |b| == 0 || |b| > 18 {
      return None;
    }
    var body := Unsigned(b);
    r := ParseBody(body);
    if r.Some? && b[0] == MINUS {
      r := Some(-r.value);
    }
  }

  lemma ToRealProduct(a: nat, p: nat)
    ensures (a * p) as real == a as real * p as real
  {
  }

  lemma DivideSum(x: real, y: real, p: real)
    requires p > 0.0
    ensures x + y / p == (x * p + y) / p
  {
    assert x * p / p == x;
  }

  /** The two accumulators combine to the number written. */
  lemma Combine(a: Bytes, f: Bytes)
    requires AllDigits(a) && AllDigits(f)
    ensures AllDigits(a + f)
    ensures Number(a) as real + Number(f) as real / Pow10(|f|) as real == Ratio(a + f, |f|)
  {
    NumberConcat(a, f);
    RatioSum(Number(a), Number(f), Pow10(|f|), Number(a + f));
  }

  lemma RatioSum(x: nat, y: nat, p: nat, n: nat)
    requires p >= 1 && n == x * p + y
    ensures x as real + y as real / p as real == n as real / p as real
  {
    ToRealProduct(x, p);
    var z := x * p;
    assert n as real == z as real + y as real;
    DivideSum(x as real, y as real, p as real);
  }

  // ---------------------------------------------------------------- what is read, and as what

  /** Digits, with or without a dot and more digits. */
  lemma PlainBodyIff(s: Bytes)
    ensures PlainBody(s) <==>
            || (s != [] && AllDigits(s))
            || exists n :: 0 < n < |s| - 1 && s[n] == DOT && AllDigits(s[..n]) && AllDigits(s[n + 1..])
  {
    var n := Run(s);
    if PlainBody(s) {
      if n == |s| {
        assert s[..n] == s;
      } else {
        assert s[n + 1..][..|s| - n - 1] == s[n + 1..];
      }
    }
    assert n < |s| ==> !IsDigit(s[n]);
    if n :| 0 < n < |s| - 1 && s[n] == DOT && AllDigits(s[..n]) && AllDigits(s[n + 1..]) {
      RunIs(s, n);
      RunIs(s[n + 1..], |s| - n - 1);
    }
  }

  lemma RunIs(s: Bytes, n: nat)
    requires n <= |s| && AllDigits(s[..n]) && (n < |s| ==> !IsDigit(s[n]))
    ensures Run(s) == n
  {
    var k := Run(s);
    assert forall i :: 0 <= i < n ==> s[..n][i] == s[i];
    assert forall i :: 0 <= i < k ==> s[..k][i] == s[i];
  }

  /** A digit counts for itself. */
  lemma NumberOne(d: Byte)
    requires IsDigit(d)
    ensures AllDigits([d]) && Number([d]) == d - 0x30
  {
    assert [d][..0] == [];
  }

  /** A minus sign negates, a plus sign does nothing. */
  lemma ValueOfSigned(s: Bytes)
    requires PlainBody(s)
    ensures Plain(s) && Plain([0x2B] + s) && Plain([0x2D] + s)
    ensures Value([0x2B] + s) == Value(s) && Value([0x2D] + s) == -Value(s)
  {
    assert IsDigit(s[..Run(s)][0]);
    assert ([PLUS] + s)[1..] == s && ([MINUS] + s)[1..] == s;
  }

  /** Digits are their decimal number. */
  lemma ValueOfDigits(a: Bytes)
    requires a != [] && AllDigits(a)
    ensures Plain(a) && Value(a) == Number(a) as real
  {
    assert a[..|a|] == a && IsDigit(a[0]);
    RunIs(a, |a|);
    WholeNumber(a);
  }

  lemma DecimalParts(a: Bytes, f: Bytes)
    requires a != [] && f != [] && AllDigits(a) && AllDigits(f)
    ensures var s := a + [DOT] + f; Run(s) == |a| && PlainBody(s) && Fraction(s) == f && s[..|a|] == a && s[0] == a[0]
  {
    var s := a + [DOT] + f;
    assert s[..|a|] == a && s[|a|] == DOT && s[|a| + 1..] == f && f[..|f|] == f;
    RunIs(s, |a|);
    RunIs(f, |f|);
  }

  lemma ValueIsRatio(a: Bytes, f: Bytes, s: Bytes)
    requires a != [] && f != [] && AllDigits(a) && AllDigits(f) && s == a + [DOT] + f
    ensures AllDigits(a + f) && Plain(s) && Value(s) == Ratio(a + f, |f|)
  {
    DecimalParts(a, f);
    assert IsDigit(a[0]) && Unsigned(s) == s;
  }

  /** Digits behind a dot add their number over the power of ten of their length. */
  lemma ValueOfDecimal(a: Bytes, f: Bytes)
    requires a != [] && f != [] && AllDigits(a) && AllDigits(f)
    ensures var s := a + [0x2E] + f;
            Plain(s) && Value(s) == Number(a) as real + Number(f) as real / Pow10(|f|) as real
  {
    ValueIsRatio(a, f, a + [DOT] + f);
    Combine(a, f);
  }
}
