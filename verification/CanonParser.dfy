/** A parser for canonical text, and the proof that it inverts the printer. */
module CanonParser {
  import opened Utf8
  import opened CanonJson

  datatype Parsed<+T> = Fail | Ok(value: T, rest: string)

  // ---------------------------------------------------------------- strings

  /** The value of a lower-case hexadecimal digit, or 16. */
  function HexValue(c: char): nat {
    if '0' <= c <= '9' then (c - '0') as nat
    else if 'a' <= c <= 'f' then (c - 'a') as nat + 10
    else 16
  }

  /** A `\uXXXX` escape. */
  function ParseUnit(s: string): (p: Parsed<nat>)
    ensures p.Ok? ==> p.value < 0x10000 && |p.rest| < |s|
  {
    if |s| < 6 || s[0] != '\\' || s[1] != 'u' then Fail
    else
      var a, b, c, d := HexValue(s[2]), HexValue(s[3]), HexValue(s[4]), HexValue(s[5]);
      if a == 16 || b == 16 || c == 16 || d == 16 then Fail
      else Ok(((a * 16 + b) * 16 + c) * 16 + d, s[6..])
  }

  /** A `\uXXXX` escape or a surrogate pair of them, as in section 7 of RFC 8259. */
  function ParseUnicode(s: string): (p: Parsed<Rune>)
    ensures p.Ok? ==> |p.rest| < |s|
  {
    match ParseUnit(s)
    case Fail => Fail
    case Ok(hi, rest) =>
      if hi < 0xD800 || hi > 0xDFFF then Ok(hi, rest)
      else if hi >= 0xDC00 then Fail
      else
        match ParseUnit(rest)
        case Fail => Fail
        case Ok(lo, rest') =>
          if 0xDC00 <= lo <= 0xDFFF then Ok(0x10000 + (hi - 0xD800) * 1024 + (lo - 0xDC00), rest') else Fail
  }

  function ParseRune(s: string): (p: Parsed<Rune>)
    ensures p.Ok? ==> |p.rest| < |s|
  {
    if s == "" || s[0] == '"' then Fail
    else if s[0] == '\\' then
      if |s| < 2 then Fail
      else match s[1]
        case '"' => Ok(0x22, s[2..])
        case '\\' => Ok(0x5C, s[2..])
        case 'b' => Ok(0x08, s[2..])
        case 'f' => Ok(0x0C, s[2..])
        case 'n' => Ok(0x0A, s[2..])
        case 'r' => Ok(0x0D, s[2..])
        case 't' => Ok(0x09, s[2..])
        case _ => ParseUnicode(s)
    else if 0x20 <= s[0] as int < 0x7F then Ok(s[0] as int, s[1..])
    else Fail
  }

  /** The runes up to the closing quote. */
  function ParseRunes(s: string): (p: Parsed<seq<Rune>>)
    ensures p.Ok? ==> |p.rest| < |s|
    decreases |s|
  {
    if s != "" && s[0] == '"' then Ok([], s[1..])
    else
      match ParseRune(s)
      case Fail => Fail
      case Ok(r, rest) =>
        match ParseRunes(rest)
        case Fail => Fail
        case Ok(rs, rest') => Ok([r] + rs, rest')
  }

  function ParseString(s: string): (p: Parsed<Bytes>)
    ensures p.Ok? ==> |p.rest| < |s|
  {
    if s == "" || s[0] != '"' then Fail
    else
      match ParseRunes(s[1..])
      case Fail => Fail
      case Ok(rs, rest) => Ok(Encode(rs), rest)
  }

  lemma ParseUnitInverts(n: nat, rest: string)
    requires n < 0x10000
    ensures ParseUnit(Unit(n) + rest) == Ok(n, rest)
  {
    var s := Unit(n) + rest;
    var a, b, c, d := n / 16 / 16 / 16, n / 16 / 16 % 16, n / 16 % 16, n % 16;
    HexDigits(n);
    HexInverts(a);
    HexInverts(b);
    HexInverts(c);
    HexInverts(d);
    assert s[6..] == rest;
  }

  lemma HexDigits(n: nat)
    requires n < 0x10000
    ensures Hex(n, 4)
         == [HexDigit(n / 16 / 16 / 16), HexDigit(n / 16 / 16 % 16), HexDigit(n / 16 % 16), HexDigit(n % 16)]
  {
    assert Hex(n / 16 / 16 / 16 / 16, 0) == "";
    assert Hex(n / 16 / 16 / 16, 1) == [HexDigit(n / 16 / 16 / 16)];
    assert Hex(n / 16 / 16, 2) == [HexDigit(n / 16 / 16 / 16), HexDigit(n / 16 / 16 % 16)];
  }

  lemma HexInverts(d: nat)
    requires d < 16
    ensures HexValue(HexDigit(d)) == d
  {
  }

  lemma UnicodeInverts(n: nat, rest: string)
    requires n < 0xD800 || 0xE000 <= n < 0x10000
    ensures ParseUnicode(Unit(n) + rest) == Ok(n, rest)
  {
    ParseUnitInverts(n, rest);
  }

  lemma PairReads(t: string, hi: nat, u: string, lo: nat, rest: string)
    requires ParseUnit(t) == Ok(hi, u) && 0xD800 <= hi < 0xDC00
    requires ParseUnit(u) == Ok(lo, rest) && 0xDC00 <= lo < 0xE000
    ensures ParseUnicode(t) == Ok(0x10000 + (hi - 0xD800) * 1024 + (lo - 0xDC00), rest)
  {
  }

  lemma UnitsInvert(hi: nat, lo: nat, rest: string)
    requires 0xD800 <= hi < 0xDC00 <= lo < 0xE000
    ensures ParseUnicode(Unit(hi) + Unit(lo) + rest) == Ok(0x10000 + (hi - 0xD800) * 1024 + (lo - 0xDC00), rest)
  {
    var u := Unit(lo) + rest;
    Regroup(Unit(hi), Unit(lo), rest);
    ParseUnitInverts(hi, u);
    ParseUnitInverts(lo, rest);
    PairReads(Unit(hi) + u, hi, u, lo, rest);
  }

  lemma EscapeIsPair(r: Rune)
    requires r >= 0x10000
    ensures Escape(r) == Unit(0xD800 + (r - 0x10000) / 1024) + Unit(0xDC00 + (r - 0x10000) % 1024)
  {
  }

  lemma PairInverts(r: Rune, hi: nat, lo: nat, rest: string)
    requires 0xD800 <= hi < 0xDC00 <= lo < 0xE000
    requires r == 0x10000 + (hi - 0xD800) * 1024 + (lo - 0xDC00) && Escape(r) == Unit(hi) + Unit(lo)
    ensures ParseUnicode(Escape(r) + rest) == Ok(r, rest)
  {
    UnitsInvert(hi, lo, rest);
  }

  lemma SurrogatesInvert(r: Rune, rest: string)
    requires r >= 0x10000
    ensures ParseUnicode(Escape(r) + rest) == Ok(r, rest)
  {
    EscapeIsPair(r);
    PairInverts(r, 0xD800 + (r - 0x10000) / 1024, 0xDC00 + (r - 0x10000) % 1024, rest);
  }

  lemma UnicodeIsRead(s: string)
    requires |s| >= 2 && s[0] == '\\' && s[1] == 'u'
    ensures ParseRune(s) == ParseUnicode(s)
  {
  }

  lemma PlainIsRead(r: Rune, rest: string)
    requires 0x20 <= r < 0x7F && r != 0x22 && r != 0x5C
    ensures ParseRune([r as char] + rest) == Ok(r, rest)
  {
    assert ([r as char] + rest)[1..] == rest;
  }

  lemma ShortIsRead(c: char, r: Rune, rest: string)
    requires (c, r) in {('"', 0x22), ('\\', 0x5C), ('b', 0x08), ('f', 0x0C), ('n', 0x0A), ('r', 0x0D), ('t', 0x09)}
    ensures ParseRune(['\\', c] + rest) == Ok(r, rest)
  {
    assert (['\\', c] + rest)[2..] == rest;
  }

  lemma ParseRuneInverts(r: Rune, rest: string)
    ensures ParseRune(Escape(r) + rest) == Ok(r, rest)
  {
    if r >= 0x10000 {
      SurrogatesInvert(r, rest);
      UnicodeIsRead(Escape(r) + rest);
    } else if Escape(r) == Unit(r) {
      UnicodeInverts(r, rest);
      UnicodeIsRead(Escape(r) + rest);
    } else if |Escape(r)| == 2 {
      ShortIsRead(Escape(r)[1], r, rest);
    } else {
      PlainIsRead(r, rest);
    }
  }

  lemma {:induction false} ParseRunesInverts(rs: seq<Rune>, rest: string)
    ensures ParseRunes(EscapeAll(rs) + "\"" + rest) == Ok(rs, rest)
  {
    var s := EscapeAll(rs) + "\"" + rest;
    if rs == [] {
      assert s[0] == '"' && s[1..] == rest;
    } else {
      var tail := EscapeAll(rs[1..]) + "\"" + rest;
      assert s == Escape(rs[0]) + tail;
      ParseRuneInverts(rs[0], tail);
      assert s[0] == Escape(rs[0])[0];
      ParseRunesInverts(rs[1..], rest);
      assert [rs[0]] + rs[1..] == rs;
    }
  }

  lemma StringReads(t: string, rs: seq<Rune>, rest: string)
    requires ParseRunes(t) == Ok(rs, rest)
    ensures ParseString("\"" + t) == Ok(Encode(rs), rest)
  {
    assert ("\"" + t)[1..] == t;
  }

  lemma QuotedReads(rs: seq<Rune>, rest: string)
    ensures ParseString("\"" + EscapeAll(rs) + "\"" + rest) == Ok(Encode(rs), rest)
  {
    var t := EscapeAll(rs) + "\"" + rest;
    RegroupClosed("\"", EscapeAll(rs), "\"", rest);
    ParseRunesInverts(rs, rest);
    StringReads(t, rs, rest);
  }

  lemma ParseStringInverts(s: Bytes, rest: string)
    requires Valid(s)
    ensures ParseString(Quote(s) + rest) == Ok(s, rest)
  {
    QuotedReads(Runes(s), rest);
    EncodeRunes(s);
  }

  /** For every byte string, valid or not: two literals are equal exactly when the strings decode to
      the same runes. */
  lemma QuoteDeterminesRunes(a: Bytes, b: Bytes)
    ensures Quote(a) == Quote(b) <==> Runes(a) == Runes(b)
  {
    if Quote(a) == Quote(b) {
      BehindQuote(EscapeAll(Runes(a)));
      BehindQuote(EscapeAll(Runes(b)));
      EscapesDetermine(Runes(a), Runes(b));
    }
  }

  lemma BehindQuote(t: string)
    ensures ("\"" + t + "\"")[1..] == t + "\""
  {
  }

  lemma EscapesDetermine(x: seq<Rune>, y: seq<Rune>)
    requires EscapeAll(x) + "\"" == EscapeAll(y) + "\""
    ensures x == y
  {
    ParseRunesInverts(x, "");
    ParseRunesInverts(y, "");
  }

  // ---------------------------------------------------------------- numbers

  predicate IsDigit(c: char) {
    '0' <= c <= '9'
  }

  /** Reads digits onto `acc` as long as there are any. */
  function ParseDigits(s: string, acc: nat): (p: (nat, string))
    ensures |p.1| <= |s|
  {
    if s != "" && IsDigit(s[0]) then ParseDigits(s[1..], acc * 10 + (s[0] - '0') as nat)
    else (acc, s)
  }

  lemma {:induction false} ParseDigitsInverts(n: nat, rest: string)
    ensures ParseDigits(Decimal(n) + rest, 0) == ParseDigits(rest, n)
  {
    var d := Digit(n % 10);
    assert IsDigit(d) && (d - '0') as nat == n % 10;
    if n < 10 {
      assert (Decimal(n) + rest)[1..] == rest;
    } else {
      assert Decimal(n) + rest == Decimal(n / 10) + ([d] + rest);
      ParseDigitsInverts(n / 10, [d] + rest);
      assert ([d] + rest)[1..] == rest;
    }
  }

  lemma {:induction false} DecimalStartsWithDigit(n: nat)
    ensures Decimal(n) != "" && IsDigit(Decimal(n)[0])
  {
    if n >= 10 { DecimalStartsWithDigit(n / 10); }
  }

  // ---------------------------------------------------------------- values

  function Skip(s: string, prefix: string): (p: Parsed<()>)
    ensures p.Ok? ==> s == prefix + p.rest
  {
    if prefix <= s then Ok((), s[|prefix|..]) else Fail
  }

  function ParseValue(s: string, f: Style): (p: Parsed<Json>)
    ensures p.Ok? ==> |p.rest| < |s|
    decreases |s|, 0
  {
    if s == "" then Fail
    else match s[0]
      case 'n' => Literal(s, "null", Null)
      case 't' => Literal(s, "true", Bool(true))
      case 'f' => Literal(s, "false", Bool(false))
      case '"' => (match ParseString(s) case Fail => Fail case Ok(b, rest) => Ok(Str(b), rest))
      case '[' =>
        if |s| > 1 && s[1] == ']' then Ok(Arr([]), s[2..])
        else (match ParseItems(s[1..], f) case Fail => Fail case Ok(items, rest) => Ok(Arr(items), rest))
      case '{' =>
        if |s| > 1 && s[1] == '}' then Ok(Obj(map[]), s[2..])
        else (match ParseMembers(s[1..], f) case Fail => Fail case Ok(m, rest) => Ok(Obj(m), rest))
      case '-' =>
        if |s| > 1 && IsDigit(s[1]) then var (n: int, rest) := ParseDigits(s[1..], 0); Ok(Int(-n), rest) else Fail
      case c =>
        if IsDigit(c) then var (n, rest) := ParseDigits(s[1..], (c - '0') as nat); Ok(Int(n), rest) else Fail
  }

  function Literal(s: string, word: string, v: Json): (p: Parsed<Json>)
    requires word != ""
    ensures p.Ok? ==> |p.rest| < |s|
  {
    match Skip(s, word)
    case Fail => Fail
    case Ok(_, rest) => Ok(v, rest)
  }

  /** One item or more, up to and including the closing bracket. */
  function ParseItems(s: string, f: Style): (p: Parsed<seq<Json>>)
    ensures p.Ok? ==> |p.rest| < |s|
    decreases |s|, 1
  {
    match ParseValue(s, f)
    case Fail => Fail
    case Ok(v, rest) =>
      if rest != "" && rest[0] == ']' then Ok([v], rest[1..])
      else match Skip(rest, f.item)
        case Fail => Fail
        case Ok(_, more) =>
          match ParseItems(more, f)
          case Fail => Fail
          case Ok(vs, end) => Ok([v] + vs, end)
  }

  /** A key, the separator and a value. */
  function ParseMember(s: string, f: Style): (p: Parsed<(Bytes, Json)>)
    ensures p.Ok? ==> |p.rest| < |s|
    decreases |s|, 1
  {
    match ParseString(s)
    case Fail => Fail
    case Ok(k, rest) =>
      match Skip(rest, f.kv)
      case Fail => Fail
      case Ok(_, more) =>
        match ParseValue(more, f)
        case Fail => Fail
        case Ok(v, end) => Ok((k, v), end)
  }

  /** One member or more, up to and including the closing brace. */
  function ParseMembers(s: string, f: Style): (p: Parsed<map<Bytes, Json>>)
    ensures p.Ok? ==> |p.rest| < |s|
    decreases |s|, 2
  {
    match ParseMember(s, f)
    case Fail => Fail
    case Ok(kv, rest) =>
      if rest != "" && rest[0] == '}' then Ok(map[kv.0 := kv.1], rest[1..])
      else match Skip(rest, f.item)
        case Fail => Fail
        case Ok(_, more) =>
          match ParseMembers(more, f)
          case Fail => Fail
          case Ok(m, end) => Ok(m[kv.0 := kv.1], end)
  }

  /** Text that may follow a value: it does not continue a number. */
  predicate Delimited(rest: string) {
    rest == "" || !IsDigit(rest[0])
  }

  lemma SkipInverts(prefix: string, rest: string)
    ensures Skip(prefix + rest, prefix) == Ok((), rest)
  {
    assert (prefix + rest)[|prefix|..] == rest;
  }

  lemma LiteralInverts(word: string, v: Json, rest: string)
    requires word != ""
    ensures Literal(word + rest, word, v) == Ok(v, rest)
  {
    SkipInverts(word, rest);
  }

  lemma ParseIntegerInverts(n: int, rest: string, f: Style)
    requires Delimited(rest)
    ensures ParseValue(Integer(n) + rest, f) == Ok(Int(n), rest)
  {
    var m: nat := if n < 0 then -n else n;
    ParseDigitsInverts(m, rest);
    DecimalStartsWithDigit(m);
    if n < 0 {
      Regroup("-", Decimal(m), rest);
      NegativeReads(Decimal(m) + rest, m, rest, f);
    } else {
      NaturalReads(Decimal(m) + rest, m, rest, f);
    }
  }

  lemma NegativeReads(t: string, m: nat, rest: string, f: Style)
    requires t != "" && IsDigit(t[0]) && ParseDigits(t, 0) == (m, rest)
    ensures ParseValue("-" + t, f) == Ok(Int(0 - m), rest)
  {
    assert ("-" + t)[1..] == t;
  }

  lemma NaturalReads(t: string, m: nat, rest: string, f: Style)
    requires t != "" && IsDigit(t[0]) && ParseDigits(t, 0) == (m, rest)
    ensures ParseValue(t, f) == Ok(Int(m), rest)
  {
    assert ParseDigits(t, 0) == ParseDigits(t[1..], (t[0] - '0') as nat);
  }

  /** The text of a value is not empty and does not start like a closing bracket. */
  lemma TextStart(v: Json, f: Style)
    ensures Text(v, f) != "" && Text(v, f)[0] != ']' && Text(v, f)[0] != '}'
  {
    if v.Int? { DecimalStartsWithDigit(if v.n < 0 then -v.n else v.n); }
  }

  lemma Regroup(x: string, y: string, z: string)
    ensures x + y + z == x + (y + z)
  {
  }

  lemma RegroupList(x: string, sep: string, y: string, close: string, rest: string)
    ensures x + sep + y + close + rest == x + (sep + (y + close + rest))
  {
  }

  lemma RegroupClosed(open: string, x: string, close: string, rest: string)
    ensures open + x + close + rest == open + (x + close + rest)
  {
  }

  // How one more item, member or bracket is read, given what follows is read.

  lemma ItemsEnd(s: string, f: Style, v: Json, rest: string)
    requires ParseValue(s, f) == Ok(v, "]" + rest)
    ensures ParseItems(s, f) == Ok([v], rest)
  {
    assert ("]" + rest)[1..] == rest;
  }

  lemma ItemsMore(s: string, f: Style, v: Json, more: string, vs: seq<Json>, rest: string)
    requires GoodStyle(f) && ParseValue(s, f) == Ok(v, f.item + more)
    requires ParseItems(more, f) == Ok(vs, rest)
    ensures ParseItems(s, f) == Ok([v] + vs, rest)
  {
    SkipInverts(f.item, more);
  }

  lemma MembersEnd(s: string, f: Style, k: Bytes, v: Json, rest: string)
    requires ParseMember(s, f) == Ok((k, v), "}" + rest)
    ensures ParseMembers(s, f) == Ok(map[k := v], rest)
  {
    assert ("}" + rest)[1..] == rest;
  }

  lemma MembersMore(s: string, f: Style, k: Bytes, v: Json, more: string, m: map<Bytes, Json>, rest: string)
    requires GoodStyle(f) && ParseMember(s, f) == Ok((k, v), f.item + more)
    requires ParseMembers(more, f) == Ok(m, rest)
    ensures ParseMembers(s, f) == Ok(m[k := v], rest)
  {
    SkipInverts(f.item, more);
  }

  lemma MemberReads(k: Bytes, f: Style, t: string, v: Json, rest: string)
    requires Valid(k) && ParseValue(t, f) == Ok(v, rest)
    ensures ParseMember(Quote(k) + (f.kv + t), f) == Ok((k, v), rest)
  {
    ParseStringInverts(k, f.kv + t);
    SkipInverts(f.kv, t);
  }

  lemma ArrayReads(t: string, f: Style, vs: seq<Json>, rest: string)
    requires t != "" && t[0] != ']' && ParseItems(t, f) == Ok(vs, rest)
    ensures ParseValue("[" + t, f) == Ok(Arr(vs), rest)
  {
    assert ("[" + t)[1..] == t;
  }

  lemma ObjectReads(t: string, f: Style, m: map<Bytes, Json>, rest: string)
    requires t != "" && t[0] != '}' && ParseMembers(t, f) == Ok(m, rest)
    ensures ParseValue("{" + t, f) == Ok(Obj(m), rest)
  {
    assert ("{" + t)[1..] == t;
  }

  lemma ScalarReads(v: Json, f: Style, rest: string)
    requires WellEncoded(v) && Delimited(rest) && !v.Arr? && !v.Obj?
    ensures ParseValue(Text(v, f) + rest, f) == Ok(v, rest)
  {
    match v
    case Null => LiteralInverts("null", Null, rest);
    case Bool(b) => LiteralInverts(if b then "true" else "false", v, rest);
    case Int(n) => ParseIntegerInverts(n, rest, f);
    case Str(t) => StringValueReads(t, f, rest);
  }

  lemma StringValueReads(t: Bytes, f: Style, rest: string)
    requires Valid(t)
    ensures ParseValue(Quote(t) + rest, f) == Ok(Str(t), rest)
  {
    ParseStringInverts(t, rest);
  }

  lemma EmptyReads(f: Style, rest: string)
    ensures ParseValue("[]" + rest, f) == Ok(Arr([]), rest)
    ensures ParseValue("{}" + rest, f) == Ok(Obj(map[]), rest)
  {
    assert ("[]" + rest)[2..] == rest && ("{}" + rest)[2..] == rest;
  }

  /** The normalised members listed by `keys`. */
  ghost function NormalOf(v: Json, keys: seq<Bytes>): map<Bytes, Json>
    requires v.Obj? && forall k :: k in keys ==> k in v.members
  {
    map k | k in keys :: Normal(v.members[k])
  }

  lemma NormalOfOne(v: Json, k: Bytes)
    requires v.Obj? && k in v.members
    ensures NormalOf(v, [k]) == map[k := Normal(v.members[k])]
  {
  }

  lemma NormalOfCons(v: Json, keys: seq<Bytes>)
    requires v.Obj? && keys != [] && forall k :: k in keys ==> k in v.members
    ensures NormalOf(v, keys) == NormalOf(v, keys[1..])[keys[0] := Normal(v.members[keys[0]])]
  {
    assert keys == [keys[0]] + keys[1..];
  }

  lemma NormalOfListed(v: Json, keys: seq<Bytes>)
    requires v.Obj? && forall k :: k in keys <==> k in Present(v.members)
    ensures Normal(v) == Obj(NormalOf(v, keys))
  {
    assert Normal(v).members == NormalOf(v, keys);
  }

  /** Parsing the canonical text of a value gives the value back, without its nil members. */
  lemma {:induction false} ParseInvertsText(v: Json, f: Style, rest: string)
    requires WellEncoded(v) && GoodStyle(f) && Delimited(rest)
    ensures ParseValue(Text(v, f) + rest, f) == Ok(Normal(v), rest)
    decreases v, 1
  {
    if v.Arr? {
      ParseInvertsArray(v, f, rest);
    } else if v.Obj? {
      ParseInvertsObject(v, f, rest);
    } else {
      ScalarReads(v, f, rest);
    }
  }

  lemma ParseInvertsArray(v: Json, f: Style, rest: string)
    requires v.Arr? && WellEncoded(v) && GoodStyle(f)
    ensures ParseValue(Text(v, f) + rest, f) == Ok(Normal(v), rest)
    decreases v, 0, |v.items| + 1
  {
    if v.items == [] {
      assert Text(v, f) == "[]" && Normal(v) == Arr([]);
      EmptyReads(f, rest);
    } else {
      var t := Items(v, 0, f) + "]" + rest;
      RegroupClosed("[", Items(v, 0, f), "]", rest);
      TextStart(v.items[0], f);
      ParseInvertsItems(v, 0, f, rest);
      ArrayReads(t, f, Normal(v).items, rest);
    }
  }

  lemma ParseInvertsObject(v: Json, f: Style, rest: string)
    requires v.Obj? && WellEncoded(v) && GoodStyle(f)
    ensures ParseValue(Text(v, f) + rest, f) == Ok(Normal(v), rest)
    decreases v, 0, |SortedKeys(Present(v.members))| + 1
  {
    var keys := SortedKeys(Present(v.members));
    NormalOfListed(v, keys);
    if keys == [] {
      assert Text(v, f) == "{}" && NormalOf(v, keys) == map[];
      EmptyReads(f, rest);
    } else {
      var t := Members(v, keys, f) + "}" + rest;
      RegroupClosed("{", Members(v, keys, f), "}", rest);
      assert Member(v, keys[0], f)[0] == '"';
      ParseInvertsMembers(v, keys, f, rest);
      ObjectReads(t, f, NormalOf(v, keys), rest);
    }
  }

  lemma {:induction false} ParseInvertsItems(v: Json, i: nat, f: Style, rest: string)
    requires v.Arr? && i < |v.items| && WellEncoded(v) && GoodStyle(f)
    ensures ParseItems(Items(v, i, f) + "]" + rest, f) == Ok(Normal(v).items[i..], rest)
    decreases v, 0, |v.items| - i
  {
    var s, x := Items(v, i, f) + "]" + rest, v.items[i];
    assert Normal(v).items[i..] == [Normal(x)] + Normal(v).items[i + 1..];
    if i == |v.items| - 1 {
      Regroup(Text(x, f), "]", rest);
      ParseInvertsText(x, f, "]" + rest);
      ItemsEnd(s, f, Normal(x), rest);
      assert Normal(v).items[i..] == [Normal(x)];
    } else {
      var more := Items(v, i + 1, f) + "]" + rest;
      RegroupList(Text(x, f), f.item, Items(v, i + 1, f), "]", rest);
      ParseInvertsText(x, f, f.item + more);
      ParseInvertsItems(v, i + 1, f, rest);
      ItemsMore(s, f, Normal(x), more, Normal(v).items[i + 1..], rest);
    }
  }

  lemma RegroupMember(key: string, kv: string, value: string, rest: string)
    ensures key + kv + value + rest == key + (kv + (value + rest))
  {
  }

  lemma ParseInvertsMember(v: Json, k: Bytes, f: Style, rest: string)
    requires v.Obj? && k in v.members && WellEncoded(v) && GoodStyle(f) && Delimited(rest)
    ensures ParseMember(Member(v, k, f) + rest, f) == Ok((k, Normal(v.members[k])), rest)
    decreases v, 0, 0
  {
    var t := Text(v.members[k], f) + rest;
    RegroupMember(Quote(k), f.kv, Text(v.members[k], f), rest);
    ParseInvertsText(v.members[k], f, rest);
    MemberReads(k, f, t, Normal(v.members[k]), rest);
  }

  lemma {:induction false} ParseInvertsMembers(v: Json, keys: seq<Bytes>, f: Style, rest: string)
    requires v.Obj? && keys != [] && (forall k :: k in keys ==> k in v.members)
    requires WellEncoded(v) && GoodStyle(f)
    ensures ParseMembers(Members(v, keys, f) + "}" + rest, f) == Ok(NormalOf(v, keys), rest)
    decreases v, 0, |keys|
  {
    var s, k := Members(v, keys, f) + "}" + rest, keys[0];
    var x := Normal(v.members[k]);
    if |keys| == 1 {
      Regroup(Member(v, k, f), "}", rest);
      ParseInvertsMember(v, k, f, "}" + rest);
      MembersEnd(s, f, k, x, rest);
      NormalOfOne(v, k);
      assert keys == [k];
    } else {
      var more := Members(v, keys[1..], f) + "}" + rest;
      RegroupList(Member(v, k, f), f.item, Members(v, keys[1..], f), "}", rest);
      ParseInvertsMember(v, k, f, f.item + more);
      ParseInvertsMembers(v, keys[1..], f, rest);
      MembersMore(s, f, k, x, more, NormalOf(v, keys[1..]), rest);
      NormalOfCons(v, keys);
    }
  }

  /** Canonical text is injective up to nil members: equal texts come from values that are equal
      once nil members are dropped, whichever separators are used. */
  lemma TextIsInjective(a: Json, b: Json, f: Style)
    requires WellEncoded(a) && WellEncoded(b) && GoodStyle(f)
    ensures Text(a, f) == Text(b, f) <==> Normal(a) == Normal(b)
  {
    ParseInvertsText(a, f, "");
    ParseInvertsText(b, f, "");
    assert Text(a, f) + "" == Text(a, f) && Text(b, f) + "" == Text(b, f);
    if Normal(a) == Normal(b) {
      TextOfNormal(a, f);
      TextOfNormal(b, f);
    }
  }

  /** Dropping nil members does not change the text. */
  lemma {:induction false} TextOfNormal(v: Json, f: Style)
    ensures Text(Normal(v), f) == Text(v, f)
    decreases v, 1
  {
    match v
    case Arr(items) =>
      ItemsOfNormal(v, 0, f);
    case Obj(m) =>
      var n := Normal(v);
      NormalNotNull(v);
      assert Present(n.members) == Present(m);
      MembersOfNormal(v, SortedKeys(Present(m)), f);
    case _ =>
  }

  lemma NormalNotNull(v: Json)
    requires v.Obj?
    ensures forall k :: k in Normal(v).members ==> Normal(v).members[k] != Null
  {
    forall k | k in Normal(v).members
      ensures Normal(v).members[k] != Null
    {
      assert Normal(v).members[k] == Normal(v.members[k]);
    }
  }

  lemma {:induction false} ItemsOfNormal(v: Json, i: nat, f: Style)
    requires v.Arr? && i <= |v.items|
    ensures Items(Normal(v), i, f) == Items(v, i, f)
    decreases v, 0, |v.items| - i
  {
    if i < |v.items| {
      TextOfNormal(v.items[i], f);
      ItemsOfNormal(v, i + 1, f);
    }
  }

  lemma {:induction false} MembersOfNormal(v: Json, keys: seq<Bytes>, f: Style)
    requires v.Obj? && forall k :: k in keys ==> k in v.members && v.members[k] != Null
    ensures Members(Normal(v), keys, f) == Members(v, keys, f)
    decreases v, 0, |keys|
  {
    if keys != [] {
      TextOfNormal(v.members[keys[0]], f);
      MembersOfNormal(v, keys[1..], f);
    }
  }
}
