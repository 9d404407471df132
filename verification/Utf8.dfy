/** UTF-8 as in section 3 of RFC 3629, with the decoder's treatment of malformed input, and the
    order of encoded strings. */
module Utf8 {
  type Byte = b: int | 0 <= b < 256
  type Bytes = seq<Byte>

  /** A Unicode scalar value. */
  type Rune = r: int | 0 <= r <= 0x10FFFF && !(0xD800 <= r <= 0xDFFF)

  const RUNE_ERROR: Rune := 0xFFFD

  function EncodeRune(r: Rune): Bytes {
    var hi := r / 64;
    if r < 0x80 then [r]
    else if r < 0x800 then [0xC0 + hi, 0x80 + r % 64]
    else if r < 0x10000 then [0xE0 + hi / 64, 0x80 + hi % 64, 0x80 + r % 64]
    else [0xF0 + hi / 64 / 64, 0x80 + hi / 64 % 64, 0x80 + hi % 64, 0x80 + r % 64]
  }

  function Encode(rs: seq<Rune>): Bytes {
    if rs == [] then [] else EncodeRune(rs[0]) + Encode(rs[1..])
  }

  predicate IsScalar(n: int) {
    0 <= n <= 0x10FFFF && !(0xD800 <= n <= 0xDFFF)
  }

  predicate Continues(s: Bytes, k: nat) {
    k < |s| && 0x80 <= s[k] < 0xC0
  }

  function Six(s: Bytes, k: nat): int
    requires k < |s|
  {
    (s[k] as int) - 0x80
  }

  /** The first rune and its width. Malformed input gives the error rune and width 1. */
  function DecodeRune(s: Bytes): (d: (Rune, nat))
    requires s != []
    ensures 1 <= d.1 <= |s|
  {
    var bad := (RUNE_ERROR, 1);
    var b0: int := s[0];
    if b0 < 0x80 then (b0, 1)
    else if 0xC0 <= b0 < 0xE0 && Continues(s, 1) then
      var r := (b0 - 0xC0) * 64 + Six(s, 1);
      if 0x80 <= r then (r, 2) else bad
    else if 0xE0 <= b0 < 0xF0 && Continues(s, 1) && Continues(s, 2) then
      var r := ((b0 - 0xE0) * 64 + Six(s, 1)) * 64 + Six(s, 2);
      if 0x800 <= r && IsScalar(r) then (r, 3) else bad
    else if 0xF0 <= b0 < 0xF8 && Continues(s, 1) && Continues(s, 2) && Continues(s, 3) then
      var r := (((b0 - 0xF0) * 64 + Six(s, 1)) * 64 + Six(s, 2)) * 64 + Six(s, 3);
      if 0x10000 <= r && IsScalar(r) then (r, 4) else bad
    else bad
  }

  /** The runes of a byte string, one error rune per malformed byte. */
  function Runes(s: Bytes): seq<Rune> {
    if s == [] then []
    else var (r, n) := DecodeRune(s); [r] + Runes(s[n..])
  }

  predicate Valid(s: Bytes) {
    if s == [] then true
    else var (r, n) := DecodeRune(s); !(r == RUNE_ERROR && n == 1) && Valid(s[n..])
  }

  lemma DecodeEncoded(r: Rune, rest: Bytes)
    ensures DecodeRune(EncodeRune(r) + rest) == (r, |EncodeRune(r)|)
  {
  }

  lemma EncodeThree(a: Byte, b: Byte, c: Byte, r: Rune)
    requires 0xE0 <= a < 0xF0 && 0x80 <= b < 0xC0 && 0x80 <= c < 0xC0
    requires r == ((a - 0xE0) * 64 + (b - 0x80)) * 64 + (c - 0x80) && 0x800 <= r
    ensures EncodeRune(r) == [a, b, c]
  {
    assert r / 64 == (a - 0xE0) * 64 + (b - 0x80);
  }

  lemma EncodeFour(a: Byte, b: Byte, c: Byte, d: Byte, r: Rune)
    requires 0xF0 <= a < 0xF8 && 0x80 <= b < 0xC0 && 0x80 <= c < 0xC0 && 0x80 <= d < 0xC0
    requires r == (((a - 0xF0) * 64 + (b - 0x80)) * 64 + (c - 0x80)) * 64 + (d - 0x80) && 0x10000 <= r
    ensures EncodeRune(r) == [a, b, c, d]
  {
    var top := (a - 0xF0) * 64 + (b - 0x80);
    assert r / 64 == top * 64 + (c - 0x80);
    assert r / 64 / 64 == top;
  }

  lemma EncodeDecoded(s: Bytes)
    requires s != [] && !(DecodeRune(s) == (RUNE_ERROR, 1))
    ensures EncodeRune(DecodeRune(s).0) == s[..DecodeRune(s).1]
  {
    var (r, n) := DecodeRune(s);
    if n == 4 {
      EncodeFour(s[0], s[1], s[2], s[3], r);
    } else if n == 3 {
      EncodeThree(s[0], s[1], s[2], r);
    }
  }

  /** The decoded rune is the one whose encoding the string begins with; when there is none, the error rune
      stands for one byte. */
  lemma DecodeRuneIff(s: Bytes, r: Rune)
    requires s != []
    ensures EncodeRune(r) <= s <==> DecodeRune(s) == (r, |EncodeRune(r)|)
    ensures (forall q: Rune :: !(EncodeRune(q) <= s)) <==> DecodeRune(s) == (RUNE_ERROR, 1)
  {
    forall q: Rune | EncodeRune(q) <= s
      ensures DecodeRune(s) == (q, |EncodeRune(q)|)
    {
      assert s == EncodeRune(q) + s[|EncodeRune(q)|..];
      DecodeEncoded(q, s[|EncodeRune(q)|..]);
    }
    if DecodeRune(s) != (RUNE_ERROR, 1) { EncodeDecoded(s); }
    assert |EncodeRune(RUNE_ERROR)| == 3;
  }

  lemma EncodeCons(r: Rune, rs: seq<Rune>)
    ensures Encode([r] + rs) == EncodeRune(r) + Encode(rs)
  {
    assert ([r] + rs)[1..] == rs;
  }

  lemma Halves(s: Bytes, n: nat)
    requires n <= |s|
    ensures s[..n] + s[n..] == s
  {
  }

  /** Decoding a valid string and encoding it again gives the string back. */
  lemma {:induction false} EncodeRunes(s: Bytes)
    requires Valid(s)
    ensures Encode(Runes(s)) == s
  {
    if s != [] {
      var (r, n) := DecodeRune(s);
      EncodeRunes(s[n..]);
      EncodeCons(r, Runes(s[n..]));
      EncodeDecoded(s);
      Halves(s, n);
    }
  }

  /** Encoding gives a valid string that decodes to the same runes. */
  lemma {:induction false} RunesEncode(rs: seq<Rune>)
    ensures Valid(Encode(rs)) && Runes(Encode(rs)) == rs
  {
    if rs != [] {
      var head, tail := EncodeRune(rs[0]), Encode(rs[1..]);
      DecodeEncoded(rs[0], tail);
      assert (head + tail)[|head|..] == tail;
      RunesEncode(rs[1..]);
    }
  }

  // ---------------------------------------------------------------- order

  /** Lexicographic order. On bytes this is the order `sort.Strings` uses. */
  predicate Less(a: seq<int>, b: seq<int>) {
    b != [] && (a == [] || a[0] < b[0] || (a[0] == b[0] && Less(a[1..], b[1..])))
  }

  lemma {:induction false} LessCommonPrefix(p: seq<int>, a: seq<int>, b: seq<int>)
    ensures Less(p + a, p + b) == Less(a, b)
  {
    if p == [] {
      assert p + a == a && p + b == b;
    } else {
      assert (p + a)[1..] == p[1..] + a && (p + b)[1..] == p[1..] + b;
      LessCommonPrefix(p[1..], a, b);
    }
  }

  lemma {:induction false} LessAtDifference(a: seq<int>, b: seq<int>, k: nat)
    requires k < |a| && k < |b| && a[..k] == b[..k] && a[k] < b[k]
    ensures Less(a, b) && !Less(b, a)
  {
    assert a == a[..k] + a[k..] && b == a[..k] + b[k..];
    LessCommonPrefix(a[..k], a[k..], b[k..]);
    LessCommonPrefix(a[..k], b[k..], a[k..]);
  }

  /** Where the encodings of two different runes first differ, the smaller rune's byte is smaller. */
  lemma SmallerRune(r: Rune, q: Rune) returns (k: nat)
    requires r < q
    ensures k < |EncodeRune(r)| && k < |EncodeRune(q)|
    ensures EncodeRune(r)[..k] == EncodeRune(q)[..k] && EncodeRune(r)[k] < EncodeRune(q)[k]
  {
    var a, b := EncodeRune(r), EncodeRune(q);
    if |a| != |b| {
      k := 0;
    } else if r / 64 == q / 64 {
      k := |a| - 1;
    } else if r / 64 / 64 == q / 64 / 64 {
      k := if |a| <= 2 then 0 else |a| - 2;
    } else {
      k := if |a| <= 3 then 0 else if r / 64 / 64 / 64 == q / 64 / 64 / 64 then 1 else 0;
    }
  }

  lemma RuneOrder(r: Rune, q: Rune, x: Bytes, y: Bytes)
    requires r < q
    ensures Less(EncodeRune(r) + x, EncodeRune(q) + y) && !Less(EncodeRune(q) + y, EncodeRune(r) + x)
  {
    var k := SmallerRune(r, q);
    var a, b := EncodeRune(r) + x, EncodeRune(q) + y;
    assert a[..k] == EncodeRune(r)[..k] && b[..k] == EncodeRune(q)[..k];
    LessAtDifference(a, b, k);
  }

  /** The byte order of encodings is the code point order of the strings they encode. */
  lemma {:induction false} EncodePreservesOrder(a: seq<Rune>, b: seq<Rune>)
    ensures Less(Encode(a), Encode(b)) == Less(a, b)
  {
    if a != [] && b != [] {
      if a[0] == b[0] {
        LessCommonPrefix(EncodeRune(a[0]), Encode(a[1..]), Encode(b[1..]));
        EncodePreservesOrder(a[1..], b[1..]);
      } else if a[0] < b[0] {
        RuneOrder(a[0], b[0], Encode(a[1..]), Encode(b[1..]));
      } else {
        RuneOrder(b[0], a[0], Encode(b[1..]), Encode(a[1..]));
      }
    }
  }

  /** On valid UTF-8, byte-wise order is Unicode code point order. */
  lemma ByteOrderIsRuneOrder(s: Bytes, t: Bytes)
    requires Valid(s) && Valid(t)
    ensures Less(s, t) <==> Less(Runes(s), Runes(t))
  {
    EncodeRunes(s);
    EncodeRunes(t);
    EncodePreservesOrder(Runes(s), Runes(t));
  }
}
