/** The scanner as written: a cursor over the response bytes and two growing columns. */
module PromScanner {
  import opened Options
  import opened Utf8
  import opened FastFloat
  import opened PromSamples

  /** Where in the buffer the closing quote of the string body at `i` is. */
  ghost function EndFrom(b: Bytes, i: nat): Option<nat>
    requires i <= |b|
    decreases |b| - i
  {
    if i == |b| then None
    else if b[i] == QUOTE then Some(i)
    else EndFrom(b, if b[i] == BACKSLASH && i + 1 < |b| then i + 2 else i + 1)
  }

  lemma {:induction false} EndFromIsQuoteEnd(b: Bytes, i: nat)
    requires i <= |b|
    ensures var n := QuoteEnd(b[i..]); EndFrom(b, i) == if n.Some? then Some(i + n.value) else None
    decreases |b| - i
  {
    if i < |b| && b[i] != QUOTE {
      var skip := if b[i] == BACKSLASH && i + 1 < |b| then 2 else 1;
      EndFromIsQuoteEnd(b, i + skip);
      assert b[i..][skip..] == b[i + skip..];
    }
  }

  lemma QuotedToken(b: Bytes, i: nat)
    requires i < |b| && b[i] == QUOTE
    ensures var n := EndFrom(b, i + 1);
            && (n.Some? ==> i < n.value < |b|)
            && ReadToken(b[i..]) == if n.Some? then Token(Quoted(b[i + 1..n.value]), b[n.value + 1..]) else TokenBad
  {
    EndFromIsQuoteEnd(b, i + 1);
    assert b[i..][1..] == b[i + 1..];
    var n := QuoteEnd(b[i + 1..]);
    if n.Some? {
      assert b[i..][1..n.value + 1] == b[i + 1..i + 1 + n.value];
      assert b[i..][n.value + 2..] == b[i + n.value + 2..];
    }
  }

  lemma BareToken(b: Bytes, i: nat, n: nat)
    requires i < |b| && b[i] != QUOTE && b[i] != OPEN && b[i] != OPEN_OBJECT && n == BareEnd(b[i..])
    ensures i + n <= |b|
    ensures ReadToken(b[i..]) == if n == 0 then TokenBad else Token(Bare(b[i..i + n]), b[i + n..])
  {
    assert b[i..][..n] == b[i..i + n] && b[i..][n..] == b[i + n..];
  }

  /** The method's result `t` with the text left makes up the specified result `r`. */
  ghost predicate TokenIs(r: TokenResult, t: TokenResult, left: Bytes) {
    if t.Token? then r == Token(t.scalar, left) else r == t
  }

  class SampleScanner {
    const b: Bytes
    var i: nat

    ghost predicate Valid()
      reads this
    {
      i <= |b|
    }

    /** The text that is left. */
    ghost function Left(): Bytes
      requires Valid()
      reads this
    {
      b[i..]
    }

    constructor (b: Bytes)
      ensures Valid() && this.b == b && i == 0 && Left() == b
    {
      this.b, this.i := b, 0;
      new;
      assert b[0..] == b;
    }

    method SkipSpaces()
      requires Valid()
      modifies this
      ensures Valid() && i >= old(i) && Left() == SkipSpace(old(Left()))
    {
      while i < |b| && IsSpace(b[i])
        invariant old(i) <= i <= |b| && SkipSpace(old(Left())) == SkipSpace(b[i..])
      {
        assert b[i..][1..] == b[i + 1..];
        i := i + 1;
      }
    }

    method Take(c: Byte) returns (taken: bool)
      requires Valid()
      modifies this
      ensures Valid() && taken == Next(old(Left()), c)
      ensures if taken then i == old(i) + 1 && Left() == old(Left())[1..] else i == old(i)
    {
      if i < |b| && b[i] == c {
        assert b[i..][1..] == b[i + 1..];
        i := i + 1;
        return true;
      }
      return false;
    }

    /** Moves past a string body to behind its closing quote, noting whether it has escapes. */
    method StringBody() returns (ok: bool, esc: bool)
      requires Valid()
      modifies this
      ensures Valid() && i >= old(i) && ok == EndFrom(b, old(i)).Some?
      ensures ok ==> i == EndFrom(b, old(i)).value + 1 && i > old(i) && esc == (BACKSLASH in b[old(i)..i - 1])
    {
      esc := false;
      ghost var start := i;
      while i < |b|
        invariant start <= i <= |b|
        invariant EndFrom(b, start) == EndFrom(b, i)
        invariant esc == (BACKSLASH in b[start..i])
      {
        if b[i] == BACKSLASH {
          esc := true;
          ghost var at := i;
          i := if i + 1 < |b| then i + 2 else |b|;
          assert b[start..i][at - start] == BACKSLASH;
          continue;
        }
        if b[i] == QUOTE {
          i := i + 1;
          return true, esc;
        }
        assert b[start..i + 1] == b[start..i] + [b[i]];
        i := i + 1;
      }
      return false, esc;
    }

    method BareBody() returns (n: nat)
      requires Valid()
      modifies this
      ensures Valid() && n == BareEnd(old(Left())) && i == old(i) + n
    {
      var start := i;
      while i < |b| && !Ends(b[i])
        invariant start <= i <= |b| && BareEnd(b[start..]) == i - start + BareEnd(b[i..])
      {
        assert b[i..][1..] == b[i + 1..];
        i := i + 1;
      }
      return i - start;
    }

    method StringToken() returns (t: TokenResult, esc: bool)
      requires Valid() && i < |b| && b[i] == QUOTE
      modifies this
      ensures Valid() && i > old(i) && TokenIs(ReadToken(old(Left())), t, Left())
      ensures t.Token? ==> t.scalar.Quoted? && esc == (BACKSLASH in t.scalar.raw)
    {
      QuotedToken(b, i);
      i := i + 1;
      var start := i;
      var ok, e := StringBody();
      if !ok {
        return TokenBad, false;
      }
      return PromSamples.Token(Quoted(b[start..i - 1]), []), e;
    }

    /** Reads one scalar. The cursor stays inside the buffer and moves forward on success. */
    method Token() returns (t: TokenResult, esc: bool)
      requires Valid()
      modifies this
      ensures Valid() && i >= old(i) && TokenIs(ReadToken(old(Left())), t, Left())
      ensures t.Token? ==> i > old(i) && esc == (t.scalar.Quoted? && BACKSLASH in t.scalar.raw)
    {
      if i >= |b| {
        return TokenBad, false;
      }
      if b[i] == OPEN || b[i] == OPEN_OBJECT {
        return TokenComplex, false;
      }
      if b[i] == QUOTE {
        t, esc := StringToken();
        return;
      }
      var start := i;
      var n := BareBody();
      BareToken(b, start, n);
      if n == 0 {
        return TokenBad, false;
      }
      return PromSamples.Token(Bare(b[start..i]), []), false;
    }

    /** Reads one bracketed sample. Members past the second are read and dropped. */
    method Pair() returns (p: PairResult)
      requires Valid()
      modifies this
      ensures Valid() && i >= old(i)
      ensures var r := ReadPair(old(Left()));
              match p
              case Members(got, _) => r == PromSamples.Members(got, Left()) && i > old(i)
              case _ => p == r
    {
      SkipSpaces();
      var open := Take(OPEN);
      if !open {
        return PairBad;
      }
      var got: seq<Scalar> := [];
      ghost var goal := ReadMembers(Left(), []);
      while true
        invariant Valid() && i > old(i)
        invariant goal == ReadMembers(Left(), got)
        decreases |b| - i
      {
        SkipSpaces();
        var closed := Take(CLOSE);
        if closed {
          return PromSamples.Members(got, []);
        }
        if |got| > 0 {
          var comma := Take(COMMA);
          if !comma {
            return PairBad;
          }
        }
        SkipSpaces();
        var t, esc := Token();
        match t
        case Token(s, _) => got := got + [s];
        case TokenComplex => return PairComplex;
        case TokenBad => return PairBad;
      }
    }
  }

  /** The conversion of a token to a number: the fast parser first, then the library's. */
  method ToFloat(e: Numerals, s: Scalar) returns (x: real)
    ensures x == FastFloatOf(e, s)
  {
    if Slow(s) {
      var t := Unquote(s.raw);
      return if t.Some? then OrZero(e.parse(t.value)) else 0.0;
    }
    var fast := FastFloat.Parse(s.raw);
    if fast.Some? {
      return fast.value;
    }
    return OrZero(e.parse(s.raw));
  }

  /** Decodes a sample array into its columns, handing anything unusual to the generic decoder. */
  method UnmarshalJSON(e: Numerals, b: Bytes, generic: Bytes -> Outcome) returns (o: Outcome)
    ensures o == Decode(e, b, generic)
  {
    var s := new SampleScanner(b);
    s.SkipSpaces();
    if NULL <= b[s.i..] {
      return Decoded([]);
    }
    var open := s.Take(OPEN);
    if !open {
      return Bad;
    }
    var samples: seq<Sample> := [];
    ghost var goal := ReadRows(e, s.Left(), []);
    while true
      invariant s.Valid() && s.b == b
      invariant goal == ReadRows(e, s.Left(), samples)
      decreases |b| - s.i
    {
      s.SkipSpaces();
      var closed := s.Take(CLOSE);
      if closed {
        return Decoded(samples);
      }
      var p := s.Pair();
      if p.PairComplex? {
        return generic(b);
      }
      if p.PairBad? {
        return Bad;
      }
      var sample := Sample(0.0, []);
      if |p.scalars| >= 2 {
        var ts := ToFloat(e, p.scalars[0]);
        sample := Sample(ts, FastStringOf(e, p.scalars[1]));
      }
      samples := samples + [sample];
      s.SkipSpaces();
      var comma := s.Take(COMMA);
      if comma {
        continue;
      }
      closed := s.Take(CLOSE);
      if closed {
        return Decoded(samples);
      }
      return Bad;
    }
  }
}
