/** What the canonical bytes are, rune by rune and character by character: the signature is computed over
    exactly these. */
module CanonBytes {
  import opened Utf8
  import opened CanonJson
  import opened CanonParser

  // ---------------------------------------------------------------- one rune

  /** Printable ASCII other than the quote and the backslash. */
  predicate Plain(r: int) {
    0x20 <= r <= 0x7E && r != 0x22 && r != 0x5C
  }

  /** The characters with a short escape, and the letter it is written with. */
  const SHORT: map<int, char> :=
    map[0x22 := '"', 0x5C := '\\', 0x08 := 'b', 0x0C := 'f', 0x0A := 'n', 0x0D := 'r', 0x09 := 't']

  predicate LowerHex(c: char) {
    '0' <= c <= '9' || 'a' <= c <= 'f'
  }

  /** `t` is `\u` with the four lower-case hexadecimal digits of `n`. */
  predicate IsUnit(t: string, n: int) {
    && |t| == 6 && t[0] == '\\' && t[1] == 'u'
    && LowerHex(t[2]) && LowerHex(t[3]) && LowerHex(t[4]) && LowerHex(t[5])
    && n == ((HexValue(t[2]) * 16 + HexValue(t[3])) * 16 + HexValue(t[4])) * 16 + HexValue(t[5])
  }

  /** `t` is the surrogate pair of `r`, as in section 7 of RFC 8259. */
  predicate IsPair(t: string, r: Rune) {
    && |t| == 12
    && exists hi, lo ::
         && IsUnit(t[..6], hi) && IsUnit(t[6..], lo)
         && 0xD800 <= hi < 0xDC00 <= lo < 0xE000 && r == 0x10000 + (hi - 0xD800) * 1024 + (lo - 0xDC00)
  }

  /** How a rune stands in a literal: printable ASCII as itself, seven characters by their short escapes, every
      other control character and everything from 0x7F on by one or two `\u` escapes. */
  predicate RuneText(r: Rune, t: string) {
    if Plain(r) then t == [r as char]
    else if r in SHORT then t == ['\\', SHORT[r]]
    else if r < 0x10000 then IsUnit(t, r)
    else IsPair(t, r)
  }

  lemma UnitIs(n: nat)
    requires n < 0x10000
    ensures IsUnit(Unit(n), n)
  {
    HexDigits(n);
    ParseUnitInverts(n, "");
    assert Unit(n) + "" == Unit(n);
  }

  lemma PairOf(t: string, hi: int, u: string, lo: int, r: Rune)
    requires IsUnit(t, hi) && IsUnit(u, lo) && 0xD800 <= hi < 0xDC00 <= lo < 0xE000
    requires r == 0x10000 + (hi - 0xD800) * 1024 + (lo - 0xDC00)
    ensures IsPair(t + u, r)
  {
    assert (t + u)[..6] == t && (t + u)[6..] == u;
  }

  lemma PairIs(r: Rune)
    requires r >= 0x10000
    ensures IsPair(Escape(r), r)
  {
    var hi, lo := 0xD800 + (r - 0x10000) / 1024, 0xDC00 + (r - 0x10000) % 1024;
    UnitIs(hi);
    UnitIs(lo);
    EscapeIsPair(r);
    PairOf(Unit(hi), hi, Unit(lo), lo, r);
  }

  lemma EscapeSpells(r: Rune)
    ensures RuneText(r, Escape(r))
  {
    if r >= 0x10000 {
      PairIs(r);
    } else if !Plain(r) && r !in SHORT {
      UnitIs(r);
    }
  }

  lemma HexValueUnique(c: char, d: char)
    requires LowerHex(c) && LowerHex(d) && HexValue(c) == HexValue(d)
    ensures c == d
  {
  }

  lemma FourDigits(a: nat, b: nat, c: nat, d: nat, a': nat, b': nat, c': nat, d': nat)
    requires a < 16 && b < 16 && c < 16 && d < 16 && a' < 16 && b' < 16 && c' < 16 && d' < 16
    requires ((a * 16 + b) * 16 + c) * 16 + d == ((a' * 16 + b') * 16 + c') * 16 + d'
    ensures a == a' && b == b' && c == c' && d == d'
  {
  }

  lemma UnitUnique(t: string, u: string, n: int)
    requires IsUnit(t, n) && IsUnit(u, n)
    ensures t == u
  {
    FourDigits(HexValue(t[2]), HexValue(t[3]), HexValue(t[4]), HexValue(t[5]),
               HexValue(u[2]), HexValue(u[3]), HexValue(u[4]), HexValue(u[5]));
    HexValueUnique(t[2], u[2]);
    HexValueUnique(t[3], u[3]);
    HexValueUnique(t[4], u[4]);
    HexValueUnique(t[5], u[5]);
  }

  lemma PairUnique(t: string, u: string, r: Rune)
    requires IsPair(t, r) && IsPair(u, r)
    ensures t == u
  {
    var hi, lo :| IsUnit(t[..6], hi) && IsUnit(t[6..], lo) && 0xD800 <= hi < 0xDC00 <= lo < 0xE000 &&
                  r == 0x10000 + (hi - 0xD800) * 1024 + (lo - 0xDC00);
    var hi', lo' :| IsUnit(u[..6], hi') && IsUnit(u[6..], lo') && 0xD800 <= hi' < 0xDC00 <= lo' < 0xE000 &&
                    r == 0x10000 + (hi' - 0xD800) * 1024 + (lo' - 0xDC00);
    UnitUnique(t[..6], u[..6], hi);
    UnitUnique(t[6..], u[6..], lo);
    assert t == t[..6] + t[6..] && u == u[..6] + u[6..];
  }

  /** The text of a rune is the only one of its form. */
  lemma EscapeIff(r: Rune, t: string)
    ensures t == Escape(r) <==> RuneText(r, t)
  {
    EscapeSpells(r);
    if RuneText(r, t) {
      if r >= 0x10000 {
        PairUnique(t, Escape(r), r);
      } else if !Plain(r) && r !in SHORT {
        UnitUnique(t, Escape(r), r);
      }
    }
  }

  // ---------------------------------------------------------------- strings

  /** `t` is the texts of the runes one behind the other. */
  ghost predicate Spells(rs: seq<Rune>, t: string) {
    if rs == [] then t == ""
    else exists n :: 0 <= n <= |t| && RuneText(rs[0], t[..n]) && Spells(rs[1..], t[n..])
  }

  /** `t` is the literal of the byte string: its runes between two quotes. */
  ghost predicate Literal(s: Bytes, t: string) {
    |t| >= 2 && t[0] == '"' && t[|t| - 1] == '"' && Spells(Runes(s), t[1..|t| - 1])
  }

  lemma {:induction false} SpellsIff(rs: seq<Rune>, t: string)
    ensures t == EscapeAll(rs) <==> Spells(rs, t)
    decreases |rs|
  {
    if rs != [] {
      var head, tail := Escape(rs[0]), EscapeAll(rs[1..]);
      EscapeIff(rs[0], head);
      SpellsIff(rs[1..], tail);
      if t == head + tail {
        assert t[..|head|] == head && t[|head|..] == tail;
      }
      if Spells(rs, t) {
        var n :| 0 <= n <= |t| && RuneText(rs[0], t[..n]) && Spells(rs[1..], t[n..]);
        EscapeIff(rs[0], t[..n]);
        SpellsIff(rs[1..], t[n..]);
        assert t == t[..n] + t[n..];
      }
    }
  }

  lemma Enclosed(body: string)
    ensures var q := "\"" + body + "\""; q[0] == '"' && q[|q| - 1] == '"' && |q| == |body| + 2 && q[1..|q| - 1] == body
  {
  }

  lemma Opened(t: string)
    requires |t| >= 2 && t[0] == '"' && t[|t| - 1] == '"'
    ensures t == "\"" + t[1..|t| - 1] + "\""
  {
  }

  /** What is written for a byte string is its literal, and nothing else is. */
  lemma QuoteIff(s: Bytes, t: string)
    ensures t == Quote(s) <==> Literal(s, t)
  {
    var rs := Runes(s);
    Enclosed(EscapeAll(rs));
    SpellsIff(rs, EscapeAll(rs));
    if Literal(s, t) {
      SpellsIff(rs, t[1..|t| - 1]);
      Opened(t);
    }
  }

  function Chars(s: Bytes): string {
    seq(|s|, i requires 0 <= i < |s| => s[i] as char)
  }

  lemma {:induction false} PlainRunes(s: Bytes)
    requires forall i :: 0 <= i < |s| ==> Plain(s[i])
    ensures EscapeAll(Runes(s)) == Chars(s)
  {
    if s != [] {
      PlainRunes(s[1..]);
      var rs := Runes(s);
      assert DecodeRune(s) == (s[0], 1) && rs == [s[0]] + Runes(s[1..]) && rs[1..] == Runes(s[1..]);
      assert Escape(s[0]) == [s[0] as char];
      assert Chars(s) == [s[0] as char] + Chars(s[1..]);
    }
  }

  /** A string of printable ASCII without quotes and backslashes stands for itself. */
  lemma PlainQuote(s: Bytes)
    requires forall i :: 0 <= i < |s| ==> Plain(s[i])
    ensures Quote(s) == "\"" + Chars(s) + "\""
  {
    PlainRunes(s);
  }

  // ---------------------------------------------------------------- whole texts

  /** Printable ASCII. */
  predicate Printable(t: string) {
    forall i :: 0 <= i < |t| ==> ' ' <= t[i] <= '~'
  }

  lemma PrintableJoin(x: string, y: string)
    requires Printable(x) && Printable(y)
    ensures Printable(x + y)
  {
  }

  lemma UnitIsPrintable(t: string, n: int)
    requires IsUnit(t, n)
    ensures Printable(t)
  {
  }

  lemma PairIsPrintable(t: string, r: Rune)
    requires IsPair(t, r)
    ensures Printable(t)
  {
    var hi, lo :| IsUnit(t[..6], hi) && IsUnit(t[6..], lo);
    UnitIsPrintable(t[..6], hi);
    UnitIsPrintable(t[6..], lo);
    assert t == t[..6] + t[6..];
    PrintableJoin(t[..6], t[6..]);
  }

  lemma EscapeIsPrintable(r: Rune, t: string)
    requires RuneText(r, t)
    ensures Printable(t)
  {
    if r >= 0x10000 {
      PairIsPrintable(t, r);
    } else if !Plain(r) && r !in SHORT {
      UnitIsPrintable(t, r);
    }
  }

  lemma {:induction false} EscapesArePrintable(rs: seq<Rune>)
    ensures Printable(EscapeAll(rs))
  {
    if rs != [] {
      EscapeSpells(rs[0]);
      EscapeIsPrintable(rs[0], Escape(rs[0]));
      EscapesArePrintable(rs[1..]);
    }
  }

  lemma {:induction false} DecimalIs(n: nat)
    ensures Decimal(n) != "" && forall i :: 0 <= i < |Decimal(n)| ==> IsDigit(Decimal(n)[i])
    ensures Decimal(n)[0] == '0' <==> n == 0
  {
    if n >= 10 { DecimalIs(n / 10); }
  }

  /** An integer is digits without a leading zero, behind a minus sign exactly when it is negative. */
  lemma IntegerIs(n: int)
    ensures var t := Integer(n);
            var digits := if n < 0 then t[1..] else t;
            && t != "" && (t[0] == '-' <==> n < 0)
            && digits != "" && (forall i :: 0 <= i < |digits| ==> IsDigit(digits[i]))
            && (digits[0] == '0' <==> n == 0)
            && ParseDigits(digits, 0) == (if n < 0 then -n else n, "")
  {
    var m: nat := if n < 0 then -n else n;
    DecimalIs(m);
    ParseDigitsInverts(m, "");
    assert Decimal(m) + "" == Decimal(m);
    assert n < 0 ==> Integer(n)[1..] == Decimal(m);
  }

  /** Every character of a canonical text is printable ASCII, whatever strings the value holds. */
  lemma {:induction false} TextIsPrintable(v: Json, f: Style)
    requires Printable(f.item) && Printable(f.kv)
    ensures Printable(Text(v, f))
    decreases v, 1
  {
    match v
    case Null =>
    case Bool(_) =>
    case Int(n) => IntegerIs(n);
    case Str(s) => QuoteIsPrintable(s);
    case Arr(_) => ItemsArePrintable(v, 0, f);
    case Obj(m) => MembersArePrintable(v, SortedKeys(Present(m)), f);
  }

  lemma QuoteIsPrintable(s: Bytes)
    ensures Printable(Quote(s))
  {
    EscapesArePrintable(Runes(s));
  }

  lemma {:induction false} ItemsArePrintable(v: Json, i: nat, f: Style)
    requires v.Arr? && i <= |v.items| && Printable(f.item) && Printable(f.kv)
    ensures Printable(Items(v, i, f))
    decreases v, 0, |v.items| - i
  {
    if i < |v.items| {
      TextIsPrintable(v.items[i], f);
      ItemsArePrintable(v, i + 1, f);
    }
  }

  lemma {:induction false} MembersArePrintable(v: Json, keys: seq<Bytes>, f: Style)
    requires v.Obj? && (forall k :: k in keys ==> k in v.members) && Printable(f.item) && Printable(f.kv)
    ensures Printable(Members(v, keys, f))
    decreases v, 0, |keys| + 1
  {
    if keys != [] {
      QuoteIsPrintable(keys[0]);
      TextIsPrintable(v.members[keys[0]], f);
      PrintableJoin(Quote(keys[0]), f.kv);
      PrintableJoin(Quote(keys[0]) + f.kv, Text(v.members[keys[0]], f));
      MembersArePrintable(v, keys[1..], f);
    }
  }

  // ---------------------------------------------------------------- an example

  /** `a` is a string with one accented letter, `b` an array with a null, and `z` is null. */
  const EXAMPLE := Obj(map[[0x62] := Arr([Int(10), Null, Bool(true)]), [0x61] := Str([0xC3, 0xA9]), [0x7A] := Null])

  lemma ExampleArray(f: Style)
    ensures Text(EXAMPLE.members[[0x62]], f) == "[10" + f.item + "null" + f.item + "true]"
  {
    var v := Arr([Int(10), Null, Bool(true)]);
    assert Decimal(1) == "1" && Integer(10) == "10";
    assert Items(v, 2, f) == "true";
    assert Items(v, 1, f) == "null" + f.item + "true";
  }

  lemma ExampleLetter()
    ensures Quote([0xC3, 0xA9]) == "\"\\u00e9\""
  {
    var s: Bytes := [0xC3, 0xA9];
    assert DecodeRune(s) == (0xE9, 2) && s[2..] == [];
    assert Runes(s) == [0xE9];
    assert IsUnit("\\u00e9", 0xE9);
    EscapeIff(0xE9, "\\u00e9");
    assert EscapeAll([]) == "" && Runes(s)[1..] == [];
  }

  lemma ExampleKeys()
    ensures SortedKeys(Present(EXAMPLE.members)) == [[0x61], [0x62]]
  {
    var keys: seq<Bytes> := [[0x61], [0x62]];
    assert KeySet(keys) == Present(EXAMPLE.members);
    ListingUnique(keys, SortedKeys(Present(EXAMPLE.members)));
  }

  lemma ExampleMembers(f: Style, keys: seq<Bytes>)
    requires keys == [[0x61], [0x62]]
    ensures Members(EXAMPLE, keys, f)
         == Quote([0x61]) + f.kv + Quote([0xC3, 0xA9]) + f.item
            + (Quote([0x62]) + f.kv + Text(EXAMPLE.members[[0x62]], f))
  {
    assert keys[1..] == [[0x62]];
    assert Members(EXAMPLE, keys[1..], f) == Member(EXAMPLE, [0x62], f);
  }

  lemma ExampleNames()
    ensures Quote([0x61]) == "\"a\"" && Quote([0x62]) == "\"b\""
  {
    PlainQuote([0x61]);
    PlainQuote([0x62]);
    assert Chars([0x61]) == "a" && Chars([0x62]) == "b";
  }

  /** Sorted keys, the null member dropped, the null item kept, and the separators in their places. */
  lemma ExampleText(f: Style)
    ensures Text(EXAMPLE, f)
         == "{" + ("\"a\"" + f.kv + "\"\\u00e9\"" + f.item
                   + ("\"b\"" + f.kv + ("[10" + f.item + "null" + f.item + "true]"))) + "}"
  {
    ExampleKeys();
    ExampleMembers(f, SortedKeys(Present(EXAMPLE.members)));
    ExampleNames();
    ExampleLetter();
    ExampleArray(f);
  }
}
