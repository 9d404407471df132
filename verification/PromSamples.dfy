/** A Prometheus sample array as JSON text, what the generic decode makes of it, and what the
    in-place scanner makes of it. */
module PromSamples {
  import opened Options
  import opened Utf8
  import opened FastFloat

  const QUOTE: Byte := 0x22
  const BACKSLASH: Byte := 0x5C
  const COMMA: Byte := 0x2C
  const OPEN: Byte := 0x5B
  const CLOSE: Byte := 0x5D
  const OPEN_OBJECT: Byte := 0x7B
  const CLOSE_OBJECT: Byte := 0x7D

  const TRUE: Bytes := [0x74, 0x72, 0x75, 0x65]
  const FALSE: Bytes := [0x66, 0x61, 0x6C, 0x73, 0x65]
  const NULL: Bytes := [0x6E, 0x75, 0x6C, 0x6C]
  const NIL: Bytes := [0x3C, 0x6E, 0x69, 0x6C, 0x3E]   // how a nil value is printed

  predicate IsSpace(b: Byte) {
    b == 0x20 || b == 0x09 || b == 0x0A || b == 0x0D
  }

  predicate Blank(s: Bytes) {
    forall i :: 0 <= i < |s| ==> IsSpace(s[i])
  }

  /** Bytes that end an unquoted token. */
  predicate Ends(b: Byte) {
    b == COMMA || b == CLOSE || b == CLOSE_OBJECT || IsSpace(b)
  }

  // ---------------------------------------------------------------- string literals

  function HexValue(b: Byte): nat {
    if 0x30 <= b <= 0x39 then b - 0x30
    else if 0x61 <= b <= 0x66 then b - 0x61 + 10
    else if 0x41 <= b <= 0x46 then b - 0x41 + 10
    else 16
  }

  /** The code unit of a `\uXXXX` escape at the start of `s`, or -1. */
  function CodeUnit(s: Bytes): int {
    if |s| < 6 || s[0] != BACKSLASH || s[1] != 0x75 then -1
    else
      var a, b, c, d := HexValue(s[2]), HexValue(s[3]), HexValue(s[4]), HexValue(s[5]);
      if a == 16 || b == 16 || c == 16 || d == 16 then -1 else ((a * 16 + b) * 16 + c) * 16 + d
  }

  /** The rune a `\u` escape stands for and the bytes it takes. Surrogates without a partner give the
      error rune. */
  function UnicodeEscape(s: Bytes): Option<(Rune, nat)> {
    var hi := CodeUnit(s);
    if hi < 0 then None
    else if hi > 0x10FFFF then None
    else if !(0xD800 <= hi <= 0xDFFF) then Some((hi, 6))
    else
      var lo := CodeUnit(s[6..]);
      if hi < 0xDC00 && 0xDC00 <= lo <= 0xDFFF then
        var r := 0x10000 + (hi - 0xD800) * 1024 + (lo - 0xDC00);
        if IsScalar(r) then Some((r, 12)) else None
      else Some((RUNE_ERROR, 6))
  }

  function SimpleEscape(b: Byte): Option<Byte> {
    if b == QUOTE || b == BACKSLASH || b == 0x2F then Some(b)
    else if b == 0x62 then Some(0x08)
    else if b == 0x66 then Some(0x0C)
    else if b == 0x6E then Some(0x0A)
    else if b == 0x72 then Some(0x0D)
    else if b == 0x74 then Some(0x09)
    else None
  }

  function Before(head: Bytes, rest: Option<Bytes>): Option<Bytes> {
    match rest case None => None case Some(t) => Some(head + t)
  }

  /** The generic decoder's reading of a string body: escapes resolved, malformed UTF-8 replaced;
      None when it is not a JSON string. */
  function Unquote(raw: Bytes): Option<Bytes>
    decreases |raw|
  {
    if raw == [] then Some([])
    else if raw[0] == QUOTE || raw[0] < 0x20 then None
    else if raw[0] == BACKSLASH then
      if |raw| < 2 then None
      else match SimpleEscape(raw[1])
        case Some(b) => Before([b], Unquote(raw[2..]))
        case None =>
          match UnicodeEscape(raw)
          case None => None
          case Some(e) => if e.1 <= |raw| then Before(EncodeRune(e.0), Unquote(raw[e.1..])) else None
    else
      var (r, n) := DecodeRune(raw);
      Before(EncodeRune(r), Unquote(raw[n..]))
  }

  /** A string body without escapes that is valid UTF-8 stands for itself. */
  lemma {:induction false} UnquoteVerbatim(raw: Bytes)
    requires Unquote(raw).Some? && BACKSLASH !in raw && Valid(raw)
    ensures Unquote(raw) == Some(raw)
    decreases |raw|
  {
    if raw != [] {
      var (r, n) := DecodeRune(raw);
      UnquoteVerbatim(raw[n..]);
      EncodeDecoded(raw);
      Halves(raw, n);
    }
  }

  // ---------------------------------------------------------------- the text

  datatype Scalar = Quoted(raw: Bytes) | Bare(raw: Bytes)

  /** A member of a sample: a scalar, or the text of an array or object. */
  datatype Item = Simple(scalar: Scalar) | Complex(text: Bytes)

  datatype Member = Member(before: Bytes, item: Item, after: Bytes)

  /** `inner` is the space inside an empty pair of brackets. */
  datatype Row = Row(before: Bytes, members: seq<Member>, inner: Bytes, after: Bytes)

  /** An element of the sample array: an array, a null, or the text of any other value. */
  datatype Element =
    | Array(row: Row)
    | Null(before: Bytes, after: Bytes)
    | Other(before: Bytes, text: Bytes, after: Bytes)

  datatype Doc = Doc(before: Bytes, elements: seq<Element>, inner: Bytes, after: Bytes)

  function ScalarText(s: Scalar): Bytes {
    match s
    case Quoted(raw) => [QUOTE] + raw + [QUOTE]
    case Bare(raw) => raw
  }

  function ItemText(v: Item): Bytes {
    match v
    case Simple(s) => ScalarText(s)
    case Complex(text) => text
  }

  function MemberText(m: Member): Bytes {
    m.before + ItemText(m.item) + m.after
  }

  /** The members from `i` on, each with the comma before it. */
  function MembersText(ms: seq<Member>, i: nat): Bytes
    requires i <= |ms|
    decreases |ms| - i
  {
    if i == |ms| then [] else (if i > 0 then [COMMA] else []) + MemberText(ms[i]) + MembersText(ms, i + 1)
  }

  function RowText(r: Row): Bytes {
    r.before + [OPEN] + (if r.members == [] then r.inner else MembersText(r.members, 0)) + [CLOSE] + r.after
  }

  function ElementText(x: Element): Bytes {
    match x
    case Array(row) => RowText(row)
    case Null(before, after) => before + NULL + after
    case Other(before, text, after) => before + text + after
  }

  function ElementsText(xs: seq<Element>, i: nat): Bytes
    requires i <= |xs|
    decreases |xs| - i
  {
    if i == |xs| then [] else (if i > 0 then [COMMA] else []) + ElementText(xs[i]) + ElementsText(xs, i + 1)
  }

  function DocText(d: Doc): Bytes {
    d.before + [OPEN] + (if d.elements == [] then d.inner else ElementsText(d.elements, 0)) + [CLOSE] + d.after
  }

  // ---------------------------------------------------------------- the generic decode

  /** Number parsing and printing. `parse` reads a number's text exactly and is None on other text;
      `format` prints a number; `render` prints a decoded array or object. */
  datatype Numerals = Numerals(parse: Bytes -> Option<real>, format: real -> Bytes, render: Bytes -> Bytes)

  ghost predicate GoodNumerals(e: Numerals) {
    && (forall s: Bytes :: Plain(s) ==> e.parse(s) == Some(Value(s)))
    && e.parse(TRUE) == None && e.parse(FALSE) == None && e.parse(NULL) == None
  }

  predicate IsLiteral(raw: Bytes) {
    raw == TRUE || raw == FALSE || raw == NULL
  }

  /** The scalar is a JSON string, literal or number. */
  predicate GoodScalar(e: Numerals, s: Scalar) {
    match s
    case Quoted(raw) => Unquote(raw).Some?
    case Bare(raw) =>
      && raw != [] && raw[0] != QUOTE && raw[0] != OPEN && raw[0] != OPEN_OBJECT
      && (forall i :: 0 <= i < |raw| ==> !Ends(raw[i]))
      && (IsLiteral(raw) || e.parse(raw).Some?)
  }

  predicate GoodMember(e: Numerals, m: Member) {
    && Blank(m.before) && Blank(m.after)
    && match m.item
       case Simple(s) => GoodScalar(e, s)
       case Complex(text) => text != [] && (text[0] == OPEN || text[0] == OPEN_OBJECT)
  }

  predicate GoodRow(e: Numerals, r: Row) {
    && Blank(r.before) && Blank(r.inner) && Blank(r.after)
    && forall i :: 0 <= i < |r.members| ==> GoodMember(e, r.members[i])
  }

  predicate GoodElement(e: Numerals, x: Element) {
    match x
    case Array(row) => GoodRow(e, row)
    case Null(before, after) => Blank(before) && Blank(after)
    case Other(before, text, after) =>
      && Blank(before) && Blank(after) && text != [] && text != NULL
      && text[0] != OPEN && text[0] != CLOSE && !IsSpace(text[0])
  }

  predicate GoodDoc(e: Numerals, d: Doc) {
    && Blank(d.before) && Blank(d.inner) && Blank(d.after)
    && forall i :: 0 <= i < |d.elements| ==> GoodElement(e, d.elements[i])
  }

  datatype Sample = Sample(timestamp: real, value: Bytes)

  /** The timestamp of a decoded member: a number, or a string that holds one, else zero. */
  function GenericFloat(e: Numerals, v: Item): real {
    match v
    case Simple(Bare(raw)) => if IsLiteral(raw) then 0.0 else OrZero(e.parse(raw))
    case Simple(Quoted(raw)) => (match Unquote(raw) case None => 0.0 case Some(t) => OrZero(e.parse(t)))
    case Complex(_) => 0.0
  }

  function OrZero(r: Option<real>): real {
    match r case None => 0.0 case Some(x) => x
  }

  /** The printed form of a decoded member. */
  function GenericString(e: Numerals, v: Item): Bytes {
    match v
    case Simple(Bare(raw)) =>
      if raw == NULL then NIL else if raw == TRUE || raw == FALSE then raw else e.format(OrZero(e.parse(raw)))
    case Simple(Quoted(raw)) => (match Unquote(raw) case None => [] case Some(t) => t)
    case Complex(text) => e.render(text)
  }

  /** Decode, then unpack: fewer than two members give the zero sample, further ones are ignored. */
  function Unpack(e: Numerals, r: Row): Sample {
    if |r.members| < 2 then Sample(0.0, [])
    else Sample(GenericFloat(e, r.members[0].item), GenericString(e, r.members[1].item))
  }

  /** A null element decodes to a nil row, which unpacks to the zero sample. */
  function UnpackElement(e: Numerals, x: Element): Sample {
    if x.Array? then Unpack(e, x.row) else Sample(0.0, [])
  }

  function Columns(e: Numerals, d: Doc): seq<Sample> {
    seq(|d.elements|, i requires 0 <= i < |d.elements| => UnpackElement(e, d.elements[i]))
  }

  /** The generic decode: an element that is neither an array nor null is an error. */
  function GenericDecode(e: Numerals, d: Doc): Outcome {
    if exists i :: 0 <= i < |d.elements| && d.elements[i].Other? then Bad else Decoded(Columns(e, d))
  }

  // ---------------------------------------------------------------- the scanner, on the text left

  function SkipSpace(s: Bytes): (r: Bytes)
    ensures |r| <= |s|
  {
    if s != [] && IsSpace(s[0]) then SkipSpace(s[1..]) else s
  }

  predicate Next(s: Bytes, b: Byte) {
    s != [] && s[0] == b
  }

  /** Where the closing quote of a string body is, or None. */
  function QuoteEnd(s: Bytes): (n: Option<nat>)
    ensures n.Some? ==> n.value < |s| && s[n.value] == QUOTE
    decreases |s|
  {
    if s == [] then None
    else if s[0] == QUOTE then Some(0)
    else
      var skip := if s[0] == BACKSLASH then 2 else 1;
      if skip > |s| then None
      else match QuoteEnd(s[skip..]) case None => None case Some(n) => Some(n + skip)
  }

  function BareEnd(s: Bytes): (n: nat)
    ensures n <= |s| && (forall i :: 0 <= i < n ==> !Ends(s[i])) && (n < |s| ==> Ends(s[n]))
  {
    if s == [] || Ends(s[0]) then 0 else 1 + BareEnd(s[1..])
  }

  datatype TokenResult = Token(scalar: Scalar, rest: Bytes) | TokenComplex | TokenBad

  function ReadToken(s: Bytes): (t: TokenResult)
    ensures t.Token? ==> |t.rest| < |s|
  {
    if s == [] then TokenBad
    else if s[0] == OPEN || s[0] == OPEN_OBJECT then TokenComplex
    else if s[0] == QUOTE then
      match QuoteEnd(s[1..])
      case None => TokenBad
      case Some(n) => Token(Quoted(s[1..n + 1]), s[n + 2..])
    else
      var n := BareEnd(s);
      if n == 0 then TokenBad else Token(Bare(s[..n]), s[n..])
  }

  datatype PairResult = Members(scalars: seq<Scalar>, rest: Bytes) | PairComplex | PairBad

  /** The members after those in `got`, up to the closing bracket. */
  function ReadMembers(s: Bytes, got: seq<Scalar>): (p: PairResult)
    ensures p.Members? ==> |p.rest| < |s|
    decreases |s|
  {
    var s := SkipSpace(s);
    if Next(s, CLOSE) then Members(got, s[1..])
    else if got != [] && !Next(s, COMMA) then PairBad
    else
      match ReadToken(SkipSpace(if got != [] then s[1..] else s))
      case Token(scalar, rest) => ReadMembers(rest, got + [scalar])
      case TokenComplex => PairComplex
      case TokenBad => PairBad
  }

  function ReadPair(s: Bytes): (p: PairResult)
    ensures p.Members? ==> |p.rest| < |s|
  {
    var s := SkipSpace(s);
    if Next(s, OPEN) then ReadMembers(s[1..], []) else PairBad
  }

  /** The token needs the generic unquoter: it has escapes, or is not valid UTF-8. */
  predicate Slow(s: Scalar) {
    s.Quoted? && (BACKSLASH in s.raw || !Valid(s.raw))
  }

  function FastFloatOf(e: Numerals, s: Scalar): real {
    if Slow(s) then (match Unquote(s.raw) case None => 0.0 case Some(t) => OrZero(e.parse(t)))
    else if |s.raw| <= 18 && Plain(s.raw) then Value(s.raw)
    else OrZero(e.parse(s.raw))
  }

  function FastStringOf(e: Numerals, s: Scalar): Bytes {
    if Slow(s) then (match Unquote(s.raw) case None => [] case Some(t) => t)
    else if s.Quoted? then s.raw
    else if s.raw == TRUE || s.raw == FALSE then s.raw
    else if s.raw == NULL then NIL
    else match e.parse(s.raw) case None => s.raw case Some(x) => e.format(x)
  }

  function SampleOf(e: Numerals, scalars: seq<Scalar>): Sample {
    if |scalars| < 2 then Sample(0.0, []) else Sample(FastFloatOf(e, scalars[0]), FastStringOf(e, scalars[1]))
  }

  datatype Outcome = Decoded(samples: seq<Sample>) | Bad | Fallback

  /** The rows after those in `got`. */
  function ReadRows(e: Numerals, s: Bytes, got: seq<Sample>): Outcome
    decreases |s|
  {
    var s := SkipSpace(s);
    if Next(s, CLOSE) then Decoded(got)
    else match ReadPair(s)
      case PairComplex => Fallback
      case PairBad => Bad
      case Members(scalars, rest) =>
        var more := got + [SampleOf(e, scalars)];
        var t := SkipSpace(rest);
        if Next(t, COMMA) then ReadRows(e, t[1..], more)
        else if Next(t, CLOSE) then Decoded(more)
        else Bad
  }

  /** The whole decode: the scanner, and the generic decode where the scanner gives up. */
  function Decode(e: Numerals, b: Bytes, generic: Bytes -> Outcome): Outcome {
    var s := SkipSpace(b);
    if NULL <= s then Decoded([])
    else if !Next(s, OPEN) then Bad
    else match ReadRows(e, s[1..], [])
      case Fallback => generic(b)
      case o => o
  }

  // ---------------------------------------------------------------- refinement

  lemma {:induction false} SkipBlank(w: Bytes, s: Bytes)
    requires Blank(w)
    ensures SkipSpace(w + s) == SkipSpace(s)
  {
    if w == [] {
      assert w + s == s;
    } else {
      assert (w + s)[1..] == w[1..] + s;
      SkipBlank(w[1..], s);
    }
  }

  /** No unescaped quote: every backslash has a byte behind it. */
  predicate Closed(raw: Bytes)
    decreases |raw|
  {
    raw == [] || (raw[0] != QUOTE && (if raw[0] == BACKSLASH then |raw| >= 2 && Closed(raw[2..]) else Closed(raw[1..])))
  }

  lemma {:induction false} ClosedConcat(a: Bytes, b: Bytes)
    requires Closed(a) && Closed(b)
    ensures Closed(a + b)
    decreases |a|
  {
    if a == [] {
      assert a + b == b;
    } else {
      var skip := if a[0] == BACKSLASH then 2 else 1;
      assert (a + b)[skip..] == a[skip..] + b;
      ClosedConcat(a[skip..], b);
    }
  }

  lemma {:induction false} ClosedPlain(s: Bytes)
    requires forall i :: 0 <= i < |s| ==> s[i] != QUOTE && s[i] != BACKSLASH
    ensures Closed(s)
  {
    if s != [] { ClosedPlain(s[1..]); }
  }

  lemma ClosedUnit(s: Bytes)
    requires CodeUnit(s) >= 0
    ensures Closed(s[..6])
  {
    var t := s[..6];
    assert t[2..] == s[2..6];
    forall i | 0 <= i < 4
      ensures t[2..][i] != QUOTE && t[2..][i] != BACKSLASH
    {
      assert HexValue(s[2 + i]) != 16;
    }
    ClosedPlain(t[2..]);
  }

  lemma ClosedEscape(s: Bytes)
    requires UnicodeEscape(s).Some?
    ensures UnicodeEscape(s).value.1 <= |s| && Closed(s[..UnicodeEscape(s).value.1])
  {
    ClosedUnit(s);
    if UnicodeEscape(s).value.1 == 12 {
      ClosedUnit(s[6..]);
      assert s[..12] == s[..6] + s[6..][..6];
      ClosedConcat(s[..6], s[6..][..6]);
    }
  }

  lemma ClosedRune(s: Bytes)
    requires s != [] && s[0] != QUOTE && s[0] != BACKSLASH
    ensures Closed(s[..DecodeRune(s).1])
  {
    ClosedPlain(s[..DecodeRune(s).1]);
  }

  lemma {:induction false} ClosedBody(raw: Bytes)
    requires Unquote(raw).Some?
    ensures Closed(raw)
    decreases |raw|
  {
    if raw != [] {
      var n;
      if raw[0] != BACKSLASH {
        n := DecodeRune(raw).1;
        ClosedRune(raw);
      } else if SimpleEscape(raw[1]).Some? {
        n := 2;
      } else {
        n := UnicodeEscape(raw).value.1;
        ClosedEscape(raw);
      }
      ClosedBody(raw[n..]);
      ClosedConcat(raw[..n], raw[n..]);
      assert raw[..n] + raw[n..] == raw;
    }
  }

  lemma {:induction false} QuoteEndAt(raw: Bytes, rest: Bytes)
    requires Closed(raw)
    ensures QuoteEnd(raw + [QUOTE] + rest) == Some(|raw|)
    decreases |raw|
  {
    var s := raw + [QUOTE] + rest;
    if raw != [] {
      var skip := if raw[0] == BACKSLASH then 2 else 1;
      assert s[skip..] == raw[skip..] + [QUOTE] + rest;
      QuoteEndAt(raw[skip..], rest);
    }
  }
}
