/** The generic decoder's unquoter reads back the literals of the canonical encoder. */
module PromStrings {
  import opened Options
  import opened Utf8
  import opened PromSamples
  import CanonJson
  import CanonParser
  import CanonBytes

  predicate Ascii(t: string) {
    forall i :: 0 <= i < |t| ==> t[i] as int < 0x80
  }

  function AsBytes(t: string): Bytes
    requires Ascii(t)
  {
    seq(|t|, i requires 0 <= i < |t| => t[i] as int)
  }

  lemma AsBytesConcat(t: string, u: string)
    requires Ascii(t) && Ascii(u)
    ensures Ascii(t + u) && AsBytes(t + u) == AsBytes(t) + AsBytes(u)
  {
  }

  lemma PrintableIsAscii(t: string)
    requires CanonBytes.Printable(t)
    ensures Ascii(t)
  {
  }

  lemma HexAgrees(c: char)
    requires CanonBytes.LowerHex(c)
    ensures HexValue(c as int) == CanonParser.HexValue(c) < 16
  {
  }

  lemma UnitCodes(t: string, n: int, rest: Bytes)
    requires CanonBytes.IsUnit(t, n)
    ensures Ascii(t) && |AsBytes(t)| == 6 && CodeUnit(AsBytes(t) + rest) == n && 0 <= n < 0x10000
    ensures (AsBytes(t) + rest)[6..] == rest && (AsBytes(t) + rest)[0] == BACKSLASH
    ensures (AsBytes(t) + rest)[1] == 0x75
  {
    CanonBytes.UnitIsPrintable(t, n);
    HexAgrees(t[2]);
    HexAgrees(t[3]);
    HexAgrees(t[4]);
    HexAgrees(t[5]);
  }

  lemma UnitUnquotes(t: string, r: Rune, rest: Bytes)
    requires CanonBytes.IsUnit(t, r)
    ensures Ascii(t) && Unquote(AsBytes(t) + rest) == Before(EncodeRune(r), Unquote(rest))
  {
    UnitCodes(t, r, rest);
    EscapeUnquotes(AsBytes(t) + rest, r, 6);
  }

  lemma PairEscapes(s: Bytes, hi: int, lo: int, r: Rune)
    requires |s| >= 6 && CodeUnit(s) == hi && CodeUnit(s[6..]) == lo && 0xD800 <= hi < 0xDC00 <= lo < 0xE000
    requires r == 0x10000 + (hi - 0xD800) * 1024 + (lo - 0xDC00)
    ensures UnicodeEscape(s) == Some((r, 12))
  {
  }

  lemma Behind(a: Bytes, b: Bytes, rest: Bytes)
    requires |a| == |b| == 6
    ensures a + b + rest == a + (b + rest) && (a + b + rest)[12..] == rest
  {
  }

  lemma PairUnquotes(t: string, r: Rune, rest: Bytes)
    requires CanonBytes.IsPair(t, r)
    ensures Ascii(t) && Unquote(AsBytes(t) + rest) == Before(EncodeRune(r), Unquote(rest))
  {
    var hi, lo :| CanonBytes.IsUnit(t[..6], hi) && CanonBytes.IsUnit(t[6..], lo) &&
                  0xD800 <= hi < 0xDC00 <= lo < 0xE000 && r == 0x10000 + (hi - 0xD800) * 1024 + (lo - 0xDC00);
    assert t == t[..6] + t[6..];
    UnitsUnquote(t[..6], hi, t[6..], lo, r, rest);
  }

  lemma UnitsUnquote(t: string, hi: int, u: string, lo: int, r: Rune, rest: Bytes)
    requires CanonBytes.IsUnit(t, hi) && CanonBytes.IsUnit(u, lo) && 0xD800 <= hi < 0xDC00 <= lo < 0xE000
    requires r == 0x10000 + (hi - 0xD800) * 1024 + (lo - 0xDC00)
    ensures Ascii(t + u) && Unquote(AsBytes(t + u) + rest) == Before(EncodeRune(r), Unquote(rest))
  {
    UnitCodes(u, lo, rest);
    UnitCodes(t, hi, AsBytes(u) + rest);
    AsBytesConcat(t, u);
    Behind(AsBytes(t), AsBytes(u), rest);
    PairEscapes(AsBytes(t) + (AsBytes(u) + rest), hi, lo, r);
    EscapeUnquotes(AsBytes(t) + AsBytes(u) + rest, r, 12);
  }

  lemma EscapeUnquotes(s: Bytes, r: Rune, n: nat)
    requires n <= |s| && |s| >= 2 && s[0] == BACKSLASH && s[1] == 0x75 && UnicodeEscape(s) == Some((r, n))
    ensures n > 0 && Unquote(s) == Before(EncodeRune(r), Unquote(s[n..]))
  {
  }

  lemma PlainUnquotes(t: string, r: Rune, rest: Bytes)
    requires CanonBytes.Plain(r) && t == [r as char]
    ensures Ascii(t) && Unquote(AsBytes(t) + rest) == Before(EncodeRune(r), Unquote(rest))
  {
    var s := AsBytes(t) + rest;
    assert s[0] == r && s[1..] == rest && DecodeRune(s) == (r, 1);
  }

  lemma ShortUnquotes(t: string, r: Rune, rest: Bytes)
    requires r in CanonBytes.SHORT && t == ['\\', CanonBytes.SHORT[r]]
    ensures Ascii(t) && Unquote(AsBytes(t) + rest) == Before(EncodeRune(r), Unquote(rest))
  {
    var s := AsBytes(t) + rest;
    assert s[0] == BACKSLASH && s[1] == CanonBytes.SHORT[r] as int && s[2..] == rest;
    assert SimpleEscape(s[1]) == Some(r) && EncodeRune(r) == [r];
  }

  lemma RuneUnquotes(t: string, r: Rune, rest: Bytes)
    requires CanonBytes.RuneText(r, t)
    ensures Ascii(t) && Unquote(AsBytes(t) + rest) == Before(EncodeRune(r), Unquote(rest))
  {
    if CanonBytes.Plain(r) {
      PlainUnquotes(t, r, rest);
    } else if r in CanonBytes.SHORT {
      ShortUnquotes(t, r, rest);
    } else if r < 0x10000 {
      UnitUnquotes(t, r, rest);
    } else {
      PairUnquotes(t, r, rest);
    }
  }

  /** Whatever the string holds, its canonical literal is read back. */
  lemma {:induction false} UnquoteInverts(rs: seq<Rune>)
    ensures Ascii(CanonJson.EscapeAll(rs)) && Unquote(AsBytes(CanonJson.EscapeAll(rs))) == Some(Encode(rs))
  {
    CanonBytes.EscapesArePrintable(rs);
    PrintableIsAscii(CanonJson.EscapeAll(rs));
    if rs != [] {
      var head, tail := CanonJson.Escape(rs[0]), CanonJson.EscapeAll(rs[1..]);
      UnquoteInverts(rs[1..]);
      CanonBytes.EscapeSpells(rs[0]);
      RuneUnquotes(head, rs[0], AsBytes(tail));
      AsBytesConcat(head, tail);
    }
  }
}
