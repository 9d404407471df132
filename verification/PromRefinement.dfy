/** The in-place scanner decodes exactly what the generic decoder does. */
module PromRefinement {
  import opened Options
  import opened Utf8
  import opened FastFloat
  import opened PromSamples

  // ---------------------------------------------------------------- one token

  /** The fast conversions agree with the generic ones on every scalar of a valid document. */
  lemma FastEqualsGeneric(e: Numerals, s: Scalar)
    requires GoodNumerals(e) && GoodScalar(e, s)
    ensures FastFloatOf(e, s) == GenericFloat(e, Simple(s))
    ensures FastStringOf(e, s) == GenericString(e, Simple(s))
  {
    if s.Quoted? && !Slow(s) { UnquoteVerbatim(s.raw); }
    if Plain(s.raw) { assert e.parse(s.raw) == Some(Value(s.raw)); }
  }

  /** The text after a token in a document: it starts with a byte that ends a token. */
  predicate Follows(rest: Bytes) {
    rest != [] && Ends(rest[0])
  }

  lemma {:induction false} BareEndAt(raw: Bytes, rest: Bytes)
    requires Follows(rest) && forall i :: 0 <= i < |raw| ==> !Ends(raw[i])
    ensures BareEnd(raw + rest) == |raw|
  {
    if raw == [] {
      assert raw + rest == rest;
    } else {
      assert (raw + rest)[1..] == raw[1..] + rest;
      BareEndAt(raw[1..], rest);
    }
  }

  lemma CutQuoted(raw: Bytes, rest: Bytes)
    ensures var t := [QUOTE] + (raw + [QUOTE] + rest);
            t[1..] == raw + [QUOTE] + rest && t[1..|raw| + 1] == raw && t[|raw| + 2..] == rest
  {
  }

  lemma QuotedReads(raw: Bytes, rest: Bytes)
    requires Closed(raw)
    ensures ReadToken([QUOTE] + (raw + [QUOTE] + rest)) == Token(Quoted(raw), rest)
  {
    QuoteEndAt(raw, rest);
    CutQuoted(raw, rest);
  }

  lemma BareReads(raw: Bytes, rest: Bytes)
    requires Follows(rest) && raw != [] && raw[0] != QUOTE && raw[0] != OPEN && raw[0] != OPEN_OBJECT
    requires forall i :: 0 <= i < |raw| ==> !Ends(raw[i])
    ensures ReadToken(raw + rest) == Token(Bare(raw), rest)
  {
    BareEndAt(raw, rest);
    assert (raw + rest)[..|raw|] == raw && (raw + rest)[|raw|..] == rest;
  }

  lemma RegroupQuoted(raw: Bytes, rest: Bytes)
    ensures [QUOTE] + raw + [QUOTE] + rest == [QUOTE] + (raw + [QUOTE] + rest)
  {
  }

  lemma TokenReads(e: Numerals, s: Scalar, rest: Bytes)
    requires GoodScalar(e, s) && Follows(rest)
    ensures ReadToken(ScalarText(s) + rest) == Token(s, rest)
    ensures ScalarText(s) != [] && !Ends(ScalarText(s)[0])
  {
    match s
    case Quoted(raw) =>
      ClosedBody(raw);
      QuotedReads(raw, rest);
      RegroupQuoted(raw, rest);
    case Bare(raw) => BareReads(raw, rest);
  }

  // ---------------------------------------------------------------- one row

  lemma SkipNothing(s: Bytes)
    requires s != [] && !IsSpace(s[0])
    ensures SkipSpace(s) == s
  {
  }

  /** One turn of the member loop, up to the token `t` that comes next. */
  lemma MemberTurn(w: Bytes, before: Bytes, t: Bytes, got: seq<Scalar>)
    requires Blank(w) && Blank(before) && t != [] && !Ends(t[0])
    ensures ReadMembers(w + ((if got != [] then [COMMA] else []) + (before + t)), got)
         == match ReadToken(t)
            case Token(scalar, rest) => ReadMembers(rest, got + [scalar])
            case TokenComplex => PairComplex
            case TokenBad => PairBad
  {
    SkipBlank(before, t);
    SkipNothing(t);
    if got != [] {
      var s := [COMMA] + (before + t);
      SkipBlank(w, s);
      SkipNothing(s);
      assert s[1..] == before + t;
    } else {
      var s := [] + (before + t);
      assert s == before + t;
      SkipBlank(w, s);
    }
  }

  lemma MembersEnd(w: Bytes, rest: Bytes, got: seq<Scalar>)
    requires Blank(w)
    ensures ReadMembers(w + ([CLOSE] + rest), got) == Members(got, rest)
  {
    SkipBlank(w, [CLOSE] + rest);
    SkipNothing([CLOSE] + rest);
    assert ([CLOSE] + rest)[1..] == rest;
  }

  /** The text left after the token of member `i`. */
  function LeftOver(ms: seq<Member>, i: nat, rest: Bytes): Bytes
    requires i < |ms|
  {
    ms[i].after + (MembersText(ms, i + 1) + ([CLOSE] + rest))
  }

  lemma Regroup(w: Bytes, c: Bytes, before: Bytes, tok: Bytes, after: Bytes, more: Bytes, end: Bytes)
    ensures w + ((c + (before + tok + after) + more) + end) == w + (c + (before + (tok + (after + (more + end)))))
  {
    assert (c + (before + tok + after) + more) + end == c + (before + (tok + (after + (more + end))));
  }

  lemma LeftOverFollows(ms: seq<Member>, i: nat, rest: Bytes)
    requires i < |ms| && Blank(ms[i].after)
    ensures Follows(LeftOver(ms, i, rest))
  {
    var more := MembersText(ms, i + 1) + ([CLOSE] + rest);
    if ms[i].after == [] { assert LeftOver(ms, i, rest) == more; }
    if i + 1 == |ms| {
      assert more == [CLOSE] + rest;
    } else {
      assert MembersText(ms, i + 1)[0] == COMMA;
    }
  }

  lemma ComplexStart(m: Member, e: Numerals, rest: Bytes)
    requires GoodMember(e, m) && m.item.Complex?
    ensures var t := ItemText(m.item) + rest; ReadToken(t) == TokenComplex && t != [] && !Ends(t[0])
  {
  }

  /** The member loop at member `i`: it stops at an array or object, and else takes the scalar. */
  lemma MemberStep(e: Numerals, ms: seq<Member>, i: nat, w: Bytes, got: seq<Scalar>, rest: Bytes)
    requires i < |ms| && |got| == i && Blank(w) && GoodMember(e, ms[i])
    ensures ReadMembers(w + (MembersText(ms, i) + ([CLOSE] + rest)), got)
         == if ms[i].item.Complex? then PairComplex else ReadMembers(LeftOver(ms, i, rest), got + [ms[i].item.scalar])
  {
    var m, left := ms[i], LeftOver(ms, i, rest);
    var tok := ItemText(m.item);
    Regroup(w, if i > 0 then [COMMA] else [], m.before, tok, m.after, MembersText(ms, i + 1), [CLOSE] + rest);
    if m.item.Complex? {
      ComplexStart(m, e, left);
    } else {
      LeftOverFollows(ms, i, rest);
      TokenReads(e, m.item.scalar, left);
    }
    MemberTurn(w, m.before, tok + left, got);
  }

  /** The text before the member loop's turn `k`. */
  function MemberAt(ms: seq<Member>, rest: Bytes, k: nat): Bytes
    requires k <= |ms|
  {
    (if k == 0 then [] else ms[k - 1].after) + (MembersText(ms, k) + ([CLOSE] + rest))
  }

  function ScalarAt(m: Member): Scalar {
    if m.item.Simple? then m.item.scalar else Bare([])
  }

  function Scalars(ms: seq<Member>): seq<Scalar> {
    seq(|ms|, i requires 0 <= i < |ms| => ScalarAt(ms[i]))
  }

  lemma MemberAtStep(e: Numerals, ms: seq<Member>, rest: Bytes, k: nat, g: seq<Scalar>)
    requires k < |ms| && |g| == k && forall j :: 0 <= j < |ms| ==> GoodMember(e, ms[j])
    ensures ReadMembers(MemberAt(ms, rest, k), g)
         == if ms[k].item.Simple? then ReadMembers(MemberAt(ms, rest, k + 1), g + [ScalarAt(ms[k])]) else PairComplex
  {
    MemberStep(e, ms, k, if k == 0 then [] else ms[k - 1].after, g, rest);
  }

  lemma MemberAtEnd(e: Numerals, ms: seq<Member>, rest: Bytes, g: seq<Scalar>)
    requires forall j :: 0 <= j < |ms| ==> GoodMember(e, ms[j])
    ensures ReadMembers(MemberAt(ms, rest, |ms|), g) == Members(g, rest)
  {
    assert MembersText(ms, |ms|) + ([CLOSE] + rest) == [CLOSE] + rest;
    MembersEnd(if |ms| == 0 then [] else ms[|ms| - 1].after, rest, g);
  }

  /** The member loop at turn `k`, with the scalars before it taken. */
  function MemberTurnAt(ms: seq<Member>, rest: Bytes, k: nat): PairResult {
    if k <= |ms| then ReadMembers(MemberAt(ms, rest, k), Scalars(ms)[..k]) else PairBad
  }

  lemma ScalarsStep(ms: seq<Member>, k: nat)
    requires k < |ms|
    ensures Scalars(ms)[..k + 1] == Scalars(ms)[..k] + [ScalarAt(ms[k])]
  {
  }

  lemma MemberTurns(e: Numerals, ms: seq<Member>, rest: Bytes, k: nat)
    requires k < |ms| && forall j :: 0 <= j < |ms| ==> GoodMember(e, ms[j])
    ensures MemberTurnAt(ms, rest, k) == if ms[k].item.Simple? then MemberTurnAt(ms, rest, k + 1) else PairComplex
  {
    MemberAtStep(e, ms, rest, k, Scalars(ms)[..k]);
    ScalarsStep(ms, k);
  }

  predicate SimpleFrom(ms: seq<Member>, k: nat) {
    forall j :: k <= j < |ms| ==> ms[j].item.Simple?
  }

  /** A loop whose turns `f(k)` go on while `p(k)` holds: it gets from turn `k` to turn `j`. */
  lemma {:induction false} Turns<R(!new)>(f: nat -> R, p: nat -> bool, n: nat, k: nat, j: nat)
    requires k <= j <= n
    requires forall i: nat :: i < n && p(i) ==> f(i) == f(i + 1)
    requires forall i: nat :: k <= i < j ==> p(i)
    ensures f(k) == f(j)
    decreases j - k
  {
    if k < j {
      Turns(f, p, n, k + 1, j);
    }
  }

  /** The first member that is an array or object, or the length. */
  function FirstComplex(ms: seq<Member>): (i: nat)
    ensures i <= |ms| && (i < |ms| ==> ms[i].item.Complex?)
    ensures forall j :: 0 <= j < i ==> ms[j].item.Simple?
  {
    if ms == [] || ms[0].item.Complex? then 0 else 1 + FirstComplex(ms[1..])
  }

  lemma MembersFrom(e: Numerals, ms: seq<Member>, rest: Bytes)
    requires forall j :: 0 <= j < |ms| ==> GoodMember(e, ms[j])
    ensures MemberTurnAt(ms, rest, 0) == if SimpleFrom(ms, 0) then MemberTurnAt(ms, rest, |ms|) else PairComplex
  {
    var f := (k: nat) => MemberTurnAt(ms, rest, k);
    var p := (k: nat) => k < |ms| && ms[k].item.Simple?;
    forall j: nat | j < |ms| && p(j)
      ensures f(j) == f(j + 1)
    {
      MemberTurns(e, ms, rest, j);
    }
    var i := FirstComplex(ms);
    Turns(f, p, |ms|, 0, i);
    if i < |ms| { MemberTurns(e, ms, rest, i); }
  }

  /** The member loop reads all the members of a row, or stops at the first array or object. */
  lemma MembersRead(e: Numerals, ms: seq<Member>, rest: Bytes)
    requires forall k :: 0 <= k < |ms| ==> GoodMember(e, ms[k])
    ensures MemberTurnAt(ms, rest, 0) == if SimpleFrom(ms, 0) then Members(Scalars(ms), rest) else PairComplex
  {
    MembersFrom(e, ms, rest);
    MemberAtEnd(e, ms, rest, Scalars(ms)[..|ms|]);
    assert Scalars(ms)[..|ms|] == Scalars(ms);
  }

  function Inside(r: Row): Bytes {
    if r.members == [] then r.inner else MembersText(r.members, 0)
  }

  lemma RowReads(e: Numerals, r: Row, rest: Bytes)
    requires GoodRow(e, r)
    ensures ReadPair(r.before + ([OPEN] + (Inside(r) + ([CLOSE] + rest))))
         == if SimpleFrom(r.members, 0) then Members(Scalars(r.members), rest) else PairComplex
  {
    var s := [OPEN] + (Inside(r) + ([CLOSE] + rest));
    SkipBlank(r.before, s);
    SkipNothing(s);
    assert s[1..] == Inside(r) + ([CLOSE] + rest);
    if r.members == [] {
      MembersEnd(r.inner, rest, []);
      assert Scalars(r.members) == [];
    } else {
      assert MemberAt(r.members, rest, 0) == Inside(r) + ([CLOSE] + rest) && Scalars(r.members)[..0] == [];
      MembersRead(e, r.members, rest);
    }
  }

  /** The sample the scanner makes of a row is the one that decode-then-unpack makes. */
  lemma SampleEqualsUnpack(e: Numerals, r: Row)
    requires GoodNumerals(e) && GoodRow(e, r) && SimpleFrom(r.members, 0)
    ensures SampleOf(e, Scalars(r.members)) == Unpack(e, r)
  {
    if |r.members| >= 2 {
      assert GoodMember(e, r.members[0]) && GoodMember(e, r.members[1]);
      FastEqualsGeneric(e, r.members[0].item.scalar);
      FastEqualsGeneric(e, r.members[1].item.scalar);
    }
  }

  // ---------------------------------------------------------------- the document

  lemma RegroupRow(before: Bytes, open: Bytes, inside: Bytes, close: Bytes, after: Bytes, more: Bytes)
    ensures before + open + inside + close + after + more == before + (open + (inside + (close + (after + more))))
  {
  }

  /** How the row loop goes on, on the text `t` that follows a row. */
  function GoOn(e: Numerals, t: Bytes, got: seq<Sample>): Outcome {
    if Next(t, COMMA) then ReadRows(e, t[1..], got) else if Next(t, CLOSE) then Decoded(got) else Bad
  }

  /** One turn of the row loop on text that starts with a row. */
  lemma RowTurn(e: Numerals, r: Row, more: Bytes, got: seq<Sample>)
    requires GoodNumerals(e) && GoodRow(e, r) && more != [] && !IsSpace(more[0])
    ensures ReadRows(e, RowText(r) + more, got)
         == if SimpleFrom(r.members, 0) then GoOn(e, more, got + [Unpack(e, r)]) else Fallback
  {
    var rest := r.after + more;
    var u := [OPEN] + (Inside(r) + ([CLOSE] + rest));
    RegroupRow(r.before, [OPEN], Inside(r), [CLOSE], r.after, more);
    RowReads(e, r, rest);
    SkipBlank(r.before, u);
    SkipNothing(u);
    SkipBlank(r.after, more);
    SkipNothing(more);
    if SimpleFrom(r.members, 0) { SampleEqualsUnpack(e, r); }
  }

  /** One turn on text that starts with an element that is no array. */
  lemma OddTurn(e: Numerals, before: Bytes, text: Bytes, more: Bytes, got: seq<Sample>)
    requires Blank(before) && text != [] && text[0] != OPEN && text[0] != CLOSE && !IsSpace(text[0])
    ensures ReadRows(e, before + (text + more), got) == Bad
  {
    SkipBlank(before, text + more);
    SkipNothing(text + more);
  }

  lemma RegroupElement(before: Bytes, text: Bytes, after: Bytes, more: Bytes)
    ensures (before + text + after) + more == before + (text + (after + more))
  {
  }

  /** An array of scalars, which the row loop reads. */
  predicate Readable(x: Element) {
    x.Array? && SimpleFrom(x.row.members, 0)
  }

  /** How the row loop ends at an element it does not read. */
  function Stop(x: Element): Outcome {
    if x.Array? then Fallback else Bad
  }

  lemma ElementTurn(e: Numerals, x: Element, more: Bytes, got: seq<Sample>)
    requires GoodNumerals(e) && GoodElement(e, x) && more != [] && !IsSpace(more[0])
    ensures ReadRows(e, ElementText(x) + more, got)
         == if Readable(x) then GoOn(e, more, got + [UnpackElement(e, x)]) else Stop(x)
  {
    match x
    case Array(row) => RowTurn(e, row, more, got);
    case Null(before, after) =>
      RegroupElement(before, NULL, after, more);
      OddTurn(e, before, NULL, after + more, got);
    case Other(before, text, after) =>
      RegroupElement(before, text, after, more);
      OddTurn(e, before, text, after + more, got);
  }

  /** The text before the row loop's turn `k`. */
  function RowAt(xs: seq<Element>, tail: Bytes, k: nat): Bytes
    requires k <= |xs|
  {
    if k == |xs| then [CLOSE] + tail else ElementText(xs[k]) + RowsLeft(xs, tail, k + 1)
  }

  /** The elements from `k` on with their commas, and what follows them. */
  function RowsLeft(xs: seq<Element>, tail: Bytes, k: nat): Bytes
    requires k <= |xs|
  {
    ElementsText(xs, k) + ([CLOSE] + tail)
  }

  lemma RegroupSeparated(c: Byte, x: Bytes, y: Bytes, z: Bytes)
    ensures ([c] + x + y) + z == [c] + (x + (y + z))
    ensures ([c] + (x + (y + z)))[1..] == x + (y + z)
  {
  }

  lemma RowsLeftStart(xs: seq<Element>, tail: Bytes, k: nat)
    requires 0 < k <= |xs|
    ensures var more := RowsLeft(xs, tail, k);
            more != [] && !IsSpace(more[0]) &&
            (if k < |xs| then more[0] == COMMA && more[1..] == RowAt(xs, tail, k) else more == RowAt(xs, tail, k))
  {
    if k < |xs| {
      RegroupSeparated(COMMA, ElementText(xs[k]), ElementsText(xs, k + 1), [CLOSE] + tail);
    } else {
      assert [] + ([CLOSE] + tail) == [CLOSE] + tail;
    }
  }

  lemma RowAtStep(e: Numerals, xs: seq<Element>, tail: Bytes, k: nat, g: seq<Sample>)
    requires k < |xs| && GoodNumerals(e) && GoodElement(e, xs[k])
    ensures ReadRows(e, RowAt(xs, tail, k), g)
         == if Readable(xs[k]) then ReadRows(e, RowAt(xs, tail, k + 1), g + [UnpackElement(e, xs[k])])
            else Stop(xs[k])
  {
    RowsLeftStart(xs, tail, k + 1);
    ElementTurn(e, xs[k], RowsLeft(xs, tail, k + 1), g);
    if k + 1 == |xs| { RowAtEnd(e, tail, g + [UnpackElement(e, xs[k])]); }
  }

  lemma RowAtEnd(e: Numerals, tail: Bytes, g: seq<Sample>)
    ensures ReadRows(e, [CLOSE] + tail, g) == Decoded(g)
  {
    SkipNothing([CLOSE] + tail);
  }

  /** The row loop at turn `k`, with the samples before it taken. */
  function RowTurnAt(e: Numerals, d: Doc, tail: Bytes, k: nat): Outcome {
    if k <= |d.elements| then ReadRows(e, RowAt(d.elements, tail, k), Columns(e, d)[..k]) else Bad
  }

  lemma ColumnsStep(e: Numerals, d: Doc, k: nat)
    requires k < |d.elements|
    ensures Columns(e, d)[..k + 1] == Columns(e, d)[..k] + [UnpackElement(e, d.elements[k])]
  {
  }

  lemma RowTurns(e: Numerals, d: Doc, tail: Bytes, k: nat)
    requires k < |d.elements| && GoodNumerals(e) && GoodDoc(e, d)
    ensures RowTurnAt(e, d, tail, k)
         == if Readable(d.elements[k]) then RowTurnAt(e, d, tail, k + 1) else Stop(d.elements[k])
  {
    RowAtStep(e, d.elements, tail, k, Columns(e, d)[..k]);
    ColumnsStep(e, d, k);
  }

  /** The first element that is not an array of scalars, or the length. */
  function FirstOdd(xs: seq<Element>): (i: nat)
    ensures i <= |xs| && (i < |xs| ==> !Readable(xs[i]))
    ensures forall j :: 0 <= j < i ==> Readable(xs[j])
  {
    if xs == [] || !Readable(xs[0]) then 0 else 1 + FirstOdd(xs[1..])
  }

  lemma RowsFrom(e: Numerals, d: Doc, tail: Bytes)
    requires GoodNumerals(e) && GoodDoc(e, d)
    ensures RowTurnAt(e, d, tail, 0) == RowTurnAt(e, d, tail, FirstOdd(d.elements))
  {
    var f := (k: nat) => RowTurnAt(e, d, tail, k);
    var p := (k: nat) => k < |d.elements| && Readable(d.elements[k]);
    forall j: nat | j < |d.elements| && p(j)
      ensures f(j) == f(j + 1)
    {
      RowTurns(e, d, tail, j);
    }
    Turns(f, p, |d.elements|, 0, FirstOdd(d.elements));
  }

  /** What the scanner makes of a document, before any fallback. */
  function Scanned(e: Numerals, d: Doc): Outcome {
    var i := FirstOdd(d.elements);
    if i == |d.elements| then Decoded(Columns(e, d)) else Stop(d.elements[i])
  }

  /** The row loop reads all elements, or stops at the first that is not an array of scalars. */
  lemma RowsRead(e: Numerals, d: Doc, tail: Bytes)
    requires GoodNumerals(e) && GoodDoc(e, d)
    ensures RowTurnAt(e, d, tail, 0) == Scanned(e, d)
  {
    var i := FirstOdd(d.elements);
    RowsFrom(e, d, tail);
    if i < |d.elements| {
      RowTurns(e, d, tail, i);
    } else {
      RowAtEnd(e, tail, Columns(e, d)[..i]);
      assert Columns(e, d)[..i] == Columns(e, d);
    }
  }

  /** The decode of a bracketed text is that of the rows in it. */
  lemma DecodeOpens(e: Numerals, before: Bytes, body: Bytes, generic: Bytes -> Outcome)
    requires Blank(before)
    ensures var b := before + ([OPEN] + body);
            Decode(e, b, generic) == match ReadRows(e, body, []) case Fallback => generic(b) case o => o
  {
    SkipBlank(before, [OPEN] + body);
    SkipNothing([OPEN] + body);
    assert ([OPEN] + body)[1..] == body;
    assert ([OPEN] + body)[0] != NULL[0];
  }

  lemma EmptyReads(e: Numerals, d: Doc)
    requires Blank(d.inner)
    ensures ReadRows(e, d.inner + ([CLOSE] + d.after), []) == Decoded([])
  {
    SkipBlank(d.inner, [CLOSE] + d.after);
    SkipNothing([CLOSE] + d.after);
  }

  /** The scanner with its fallback, on every document. */
  lemma DecodeIsScanned(e: Numerals, d: Doc, generic: Bytes -> Outcome)
    requires GoodNumerals(e) && GoodDoc(e, d)
    ensures Decode(e, DocText(d), generic) == if Scanned(e, d).Fallback? then generic(DocText(d)) else Scanned(e, d)
  {
    var inside := if d.elements == [] then d.inner else ElementsText(d.elements, 0);
    var body := inside + ([CLOSE] + d.after);
    RegroupDoc(d.before, [OPEN], inside, [CLOSE], d.after);
    DecodeOpens(e, d.before, body, generic);
    if d.elements == [] {
      EmptyReads(e, d);
      assert Columns(e, d) == [];
    } else {
      FirstRow(d.elements, d.after);
      RowsRead(e, d, d.after);
      assert Columns(e, d)[..0] == [];
    }
  }

  /** The first element the scanner cannot read is a null, and the generic decode has no objection to
      any element. */
  predicate NullFirst(d: Doc) {
    var i := FirstOdd(d.elements);
    && i < |d.elements| && d.elements[i].Null?
    && forall j :: 0 <= j < |d.elements| ==> !d.elements[j].Other?
  }

  /** On every JSON array, the scanner with its fallback does what the generic decode does, errors
      included, if and only if its first element that is not an array of scalars is not a null, or some
      element is neither an array nor a null. */
  lemma ScannerAgreesIff(e: Numerals, d: Doc, generic: Bytes -> Outcome)
    requires GoodNumerals(e) && GoodDoc(e, d) && generic(DocText(d)) == GenericDecode(e, d)
    ensures Decode(e, DocText(d), generic) == GenericDecode(e, d) <==> !NullFirst(d)
  {
    DecodeIsScanned(e, d, generic);
  }

  /** In particular on every JSON array whose elements are arrays. */
  lemma ScannerRefinesGeneric(e: Numerals, d: Doc, generic: Bytes -> Outcome)
    requires GoodNumerals(e) && GoodDoc(e, d) && generic(DocText(d)) == GenericDecode(e, d)
    requires forall i :: 0 <= i < |d.elements| ==> d.elements[i].Array?
    ensures Decode(e, DocText(d), generic) == Decoded(Columns(e, d))
  {
    ScannerAgreesIff(e, d, generic);
  }

  lemma NullText()
    ensures DocText(Doc([], [Null([], [])], [], [])) == [OPEN] + NULL + [CLOSE]
  {
    assert ElementsText([Null([], [])], 1) == [];
  }

  /** `[null]`: the generic decode gives one zero sample, the scanner an error. */
  lemma NullElementDiverges(e: Numerals, generic: Bytes -> Outcome)
    requires GoodNumerals(e)
    ensures var d := Doc([], [Null([], [])], [], []);
            && DocText(d) == [OPEN] + NULL + [CLOSE] && GoodDoc(e, d)
            && GenericDecode(e, d) == Decoded([Sample(0.0, [])])
            && Decode(e, DocText(d), generic) == Bad
  {
    var d := Doc([], [Null([], [])], [], []);
    NullText();
    assert FirstOdd(d.elements) == 0;
    DecodeIsScanned(e, d, generic);
    assert Columns(e, d) == [Sample(0.0, [])];
  }

  lemma RegroupDoc(before: Bytes, open: Bytes, inside: Bytes, close: Bytes, after: Bytes)
    ensures before + open + inside + close + after == before + (open + (inside + (close + after)))
  {
  }

  lemma FirstRow(xs: seq<Element>, tail: Bytes)
    requires xs != []
    ensures ElementsText(xs, 0) + ([CLOSE] + tail) == RowAt(xs, tail, 0)
  {
    RegroupFirst(ElementText(xs[0]), ElementsText(xs, 1), [CLOSE] + tail);
  }

  lemma RegroupFirst(x: Bytes, y: Bytes, z: Bytes)
    ensures ([] + x + y) + z == x + (y + z)
  {
  }
}
