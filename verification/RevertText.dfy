/** What paths mean, independently of how they are read: written-out accessors are read back, and so are
    dotted keys on objects without odd keys. */
module RevertText {
  import opened Options
  import opened RevertTree
  import opened RevertPath

  // ---------------------------------------------------------------- indices

  const TWO_63: int := 0x8000_0000_0000_0000

  function Decimal(n: nat): string {
    if n < 10 then ['0' + n as char] else Decimal(n / 10) + ['0' + (n % 10) as char]
  }

  lemma {:induction false} DigitsAppend(s: string, c: char, acc: nat)
    requires Digits(s, acc).Some? && '0' <= c <= '9'
    ensures Digits(s + [c], acc) == Some(Digits(s, acc).value * 10 + (c - '0') as nat)
    decreases |s|
  {
    if s == "" {
      assert s + [c] == [c] && [c][1..] == "";
    } else {
      assert (s + [c])[1..] == s[1..] + [c];
      DigitsAppend(s[1..], c, acc * 10 + (s[0] - '0') as nat);
    }
  }

  lemma {:induction false} DecimalReads(n: nat)
    ensures Digits(Decimal(n), 0) == Some(n) && Decimal(n) != "" && '0' <= Decimal(n)[0] <= '9'
    ensures forall i :: 0 <= i < |Decimal(n)| ==> '0' <= Decimal(n)[i] <= '9'
  {
    if n < 10 {
      var c := '0' + n as char;
      assert [c][1..] == "";
    } else {
      DecimalReads(n / 10);
      DigitsAppend(Decimal(n / 10), '0' + (n % 10) as char, 0);
    }
  }

  /** A written index is read as that index. */
  lemma AtoiReads(n: nat)
    requires n < TWO_63
    ensures Atoi(Decimal(n)) == Some(n)
  {
    DecimalReads(n);
  }

  /** A sign makes the number negative or not; the range is that of 64 bits. */
  lemma AtoiSigned(n: nat)
    ensures Atoi("-" + Decimal(n)) == (if n <= TWO_63 then Some(-(n as int)) else None)
    ensures Atoi("+" + Decimal(n)) == Atoi(Decimal(n)) == (if n < TWO_63 then Some(n) else None)
  {
    DecimalReads(n);
    assert ("-" + Decimal(n))[1..] == Decimal(n) && ("+" + Decimal(n))[1..] == Decimal(n);
  }

  lemma {:induction false} DigitsFail(s: string, k: nat, acc: nat)
    requires k < |s| && !('0' <= s[k] <= '9')
    ensures Digits(s, acc) == None
    decreases |s|
  {
    if k > 0 && '0' <= s[0] <= '9' { DigitsFail(s[1..], k - 1, acc * 10 + (s[0] - '0') as nat); }
  }

  /** Anything but digits behind an optional sign is no number. */
  lemma AtoiFails(s: string, k: nat)
    requires k < |s| && !('0' <= s[k] <= '9') && (s[k] == '-' || s[k] == '+' ==> k > 0)
    ensures Atoi(s) == None
  {
    if s[0] == '-' || s[0] == '+' { DigitsFail(s[1..], k - 1, 0); } else { DigitsFail(s, k, 0); }
  }

  /** Folded: the path is read as these accessors. */
  ghost predicate Reads(flat: set<string>, path: string, node: Node, prev: string, steps: seq<Step>) {
    forall k: nat :: Unfold(k) ==> Tokens(flat, path, node, prev) == Some(steps)
  }

  lemma ReadsEnd(flat: set<string>, node: Node, prev: string)
    ensures Reads(flat, "", node, prev, [])
  {
  }

  // ---------------------------------------------------------------- bracketed paths

  /** A key without a closing bracket, or an index of an array. */
  predicate Bracketable(s: Step) {
    match s
    case Key(k) => ']' !in k
    case Index(i) => 0 <= i < TWO_63
  }

  /** Either kind of quotes. */
  type Quotes = q: char | q == '"' || q == '\'' witness '"'

  function Inside(s: Step, q: Quotes): string
    requires Bracketable(s)
  {
    match s
    case Key(k) => [q] + k + [q]
    case Index(i) => Decimal(i)
  }

  function Bracketed(steps: seq<Step>, q: Quotes): string
    requires forall i :: 0 <= i < |steps| ==> Bracketable(steps[i])
  {
    if steps == [] then "" else "[" + Inside(steps[0], q) + "]" + Bracketed(steps[1..], q)
  }

  lemma FindClosing(t: string, rest: string)
    requires ']' !in t
    ensures Find("[" + t + "]" + rest, ']') == |t| + 1
  {
    var s := "[" + t + "]" + rest;
    assert forall i :: 0 <= i < |t| ==> s[i + 1] == t[i];
    assert s[|t| + 1] == ']';
  }

  lemma InsideIsClosed(s: Step, q: Quotes)
    requires Bracketable(s)
    ensures ']' !in Inside(s, q)
  {
    if s.Index? { DecimalReads(s.index); }
  }

  lemma CutBracket(t: string, rest: string)
    ensures var s := "[" + t + "]" + rest; s[1..|t| + 1] == t && s[|t| + 2..] == rest && s != "" && s[0] == '['
  {
  }

  /** The node and the key behind an accessor. */
  function Child(node: Node, s: Step): Node {
    match s case Key(k) => DescendKey(node, k) case Index(i) => DescendIndex(node, i)
  }

  function Passed(s: Step): string {
    match s case Key(k) => k case Index(_) => ""
  }

  lemma BracketedFirst(flat: set<string>, s: Step, rest: string, node: Node, prev: string, more: seq<Step>,
                       q: Quotes)
    requires Bracketable(s) && Reads(flat, rest, Child(node, s), Passed(s), more)
    ensures Reads(flat, "[" + Inside(s, q) + "]" + rest, node, prev, [s] + more)
  {
    assert Unfold(0);
    var t := Inside(s, q);
    var path := "[" + t + "]" + rest;
    InsideIsClosed(s, q);
    FindClosing(t, rest);
    CutBracket(t, rest);
    match s
    case Key(k) =>
      assert IsQuoted(t) && t[1..|t| - 1] == k;
      QuotedKey(flat, path, node, prev, |t| + 1);
    case Index(i) =>
      DecimalReads(i);
      AtoiReads(i);
      IndexKey(flat, path, node, prev, |t| + 1, Some(i));
  }

  lemma {:induction false} ReadsBracketed(flat: set<string>, steps: seq<Step>, node: Node, prev: string, q: Quotes)
    requires forall i :: 0 <= i < |steps| ==> Bracketable(steps[i])
    ensures Reads(flat, Bracketed(steps, q), node, prev, steps)
    decreases |steps|
  {
    if steps != [] {
      var s, rest := steps[0], steps[1..];
      ReadsBracketed(flat, rest, Child(node, s), Passed(s), q);
      BracketedFirst(flat, s, Bracketed(rest, q), node, prev, rest, q);
      assert [s] + rest == steps;
    }
  }

  /** Any accessors, written out in brackets, are read back, whatever object the path is resolved against. */
  lemma BracketedReads(flat: set<string>, steps: seq<Step>, node: Node, prev: string, q: Quotes)
    requires forall i :: 0 <= i < |steps| ==> Bracketable(steps[i])
    ensures Tokens(flat, Bracketed(steps, q), node, prev) == Some(steps)
  {
    ReadsBracketed(flat, steps, node, prev, q);
    assert Unfold(0);
  }

  /** A bracket that is not closed, or that holds neither a quoted key nor a number, makes a path invalid. */
  lemma BadBracket(flat: set<string>, t: string, rest: string, node: Node, prev: string)
    requires ']' !in t
    ensures Tokens(flat, "[" + t, node, prev) == None
    ensures !IsQuoted(t) && Atoi(t) == None ==> Tokens(flat, "[" + t + "]" + rest, node, prev) == None
  {
    var open := "[" + t;
    assert Find(open, ']') == |open| by { assert forall i :: 0 <= i < |t| ==> open[i + 1] == t[i]; }
    FindClosing(t, rest);
    CutBracket(t, rest);
  }

  // ---------------------------------------------------------------- dotted paths

  predicate PlainKey(k: string) {
    k != "" && '.' !in k && '[' !in k
  }

  /** No key at any depth has a dot or a bracket in it. */
  predicate PlainKeys(node: Node) {
    match node
    case Obj(m) => forall k :: k in m ==> PlainKey(k) && PlainKeys(m[k])
    case _ => true
  }

  function Dotted(keys: seq<string>): string {
    if keys == [] then "" else if |keys| == 1 then keys[0] else keys[0] + "." + Dotted(keys[1..])
  }

  /** A plain first segment is the key, whether it is present or not. */
  lemma PlainLength(node: Node, k: string, tail: string)
    requires PlainKey(k) && PlainKeys(node) && (tail == "" || tail[0] == '.')
    ensures KeyLength(node, k + tail) == |k|
  {
    var rest := k + tail;
    forall n | 1 <= n <= |rest| && n != |k|
      ensures !Fits(KeysOf(node), rest, n)
    {
      if n < |k| {
        assert rest[n] == k[n] && k[n] in k;
      } else {
        assert rest[..n][|k|] == '.';
        assert '.' in rest[..n];
      }
    }
    if |k| < |rest| { assert rest[|k|] == '.'; }
    SegmentIs(k, tail);
    if rest[..|k|] in KeysOf(node) {
      assert Fits(KeysOf(node), rest, |k|);
      LongestIs(KeysOf(node), rest, |rest|, |k|);
    }
  }

  lemma SegmentIs(k: string, tail: string)
    requires PlainKey(k) && (tail == "" || tail[0] == '.')
    ensures Segment(k + tail) == |k|
  {
    var rest := k + tail;
    assert forall i :: 0 <= i < |k| ==> rest[i] == k[i] && k[i] in k;
    assert |k| < |rest| ==> rest[|k|] == '.';
  }

  lemma PlainFirst(flat: set<string>, k: string, tail: string, node: Node, prev: string)
    requires PlainKey(k) && PlainKeys(node) && prev !in flat && (tail == "" || tail[0] == '.')
    ensures Tokens(flat, k + tail, node, prev) == Then(Key(k), Tokens(flat, tail, DescendKey(node, k), k))
  {
    PlainLength(node, k, tail);
    assert (k + tail)[0] == k[0] && k[0] in k;
    LongKey(flat, k + tail, node, prev, |k|);
    assert (k + tail)[..|k|] == k && (k + tail)[|k|..] == tail;
  }

  lemma SkipDot(flat: set<string>, rest: string, node: Node, prev: string)
    ensures Tokens(flat, "." + rest, node, prev) == Tokens(flat, rest, node, prev)
  {
    assert ("." + rest)[1..] == rest;
  }

  function KeysAsSteps(keys: seq<string>): seq<Step> {
    seq(|keys|, i requires 0 <= i < |keys| => Key(keys[i]))
  }

  lemma DottedFirst(flat: set<string>, k: string, tail: string, node: Node, prev: string, more: seq<Step>)
    requires PlainKey(k) && PlainKeys(node) && prev !in flat && Reads(flat, tail, DescendKey(node, k), k, more)
    ensures Reads(flat, k + ("." + tail), node, prev, [Key(k)] + more)
    ensures tail == "" ==> Reads(flat, k, node, prev, [Key(k)])
  {
    assert Unfold(0);
    PlainFirst(flat, k, "." + tail, node, prev);
    SkipDot(flat, tail, DescendKey(node, k), k);
    PlainFirst(flat, k, "", node, prev);
    assert k + "" == k && [Key(k)] + [] == [Key(k)];
  }

  lemma {:induction false} ReadsDotted(flat: set<string>, keys: seq<string>, node: Node, prev: string)
    requires (forall i :: 0 <= i < |keys| ==> PlainKey(keys[i])) && PlainKeys(node)
    requires prev !in flat && forall i :: 0 <= i < |keys| - 1 ==> keys[i] !in flat
    ensures Reads(flat, Dotted(keys), node, prev, KeysAsSteps(keys))
    decreases |keys|
  {
    if keys == [] {
      ReadsEnd(flat, node, prev);
      assert KeysAsSteps(keys) == [];
    } else {
      var k, more := keys[0], keys[1..];
      if more == [] {
        ReadsEnd(flat, DescendKey(node, k), k);
        assert KeysAsSteps(more) == [] && KeysAsSteps(keys) == [Key(k)];
      } else {
        ReadsDotted(flat, more, DescendKey(node, k), k);
        assert Dotted(keys) == k + ("." + Dotted(more));
      }
      DottedFirst(flat, k, Dotted(more), node, prev, KeysAsSteps(more));
      assert KeysAsSteps(keys) == [Key(k)] + KeysAsSteps(more);
    }
  }

  /** Dotted plain keys are read as those keys, present or not, on an object without odd keys, as long as none
      but the last names a flat map. */
  lemma DottedReads(flat: set<string>, keys: seq<string>, node: Node, prev: string)
    requires (forall i :: 0 <= i < |keys| ==> PlainKey(keys[i])) && PlainKeys(node)
    requires prev !in flat && forall i :: 0 <= i < |keys| - 1 ==> keys[i] !in flat
    ensures Tokens(flat, Dotted(keys), node, prev) == Some(KeysAsSteps(keys))
  {
    ReadsDotted(flat, keys, node, prev);
    assert Unfold(0);
  }

  lemma ReadsFlat(flat: set<string>, key: string, node: Node, prev: string)
    requires prev in flat && key != "" && key[0] != '.' && key[0] != '['
    ensures Reads(flat, key, node, prev, [Key(key)])
  {
  }

  /** Behind the name of a flat map all of the path is one key, dots and brackets included. */
  lemma FlatReads(flat: set<string>, field: string, key: string, node: Node, prev: string)
    requires PlainKey(field) && PlainKeys(node) && prev !in flat && field in flat
    requires key != "" && key[0] != '.' && key[0] != '['
    ensures Tokens(flat, field + ("." + key), node, prev) == Some([Key(field), Key(key)])
  {
    ReadsFlat(flat, key, DescendKey(node, field), field);
    DottedFirst(flat, field, key, node, prev, [Key(key)]);
    assert [Key(field)] + [Key(key)] == [Key(field), Key(key)];
    assert Unfold(0);
  }

  // ---------------------------------------------------------------- qualifiers

  /** The first segment of a path is a workload kind, in any case. */
  predicate Qualified(path: string) {
    exists i, n :: 0 <= i < |WORKLOAD_KINDS| && 0 < n < |path| && path[n] == '.'
              && SameLetters(WORKLOAD_KINDS[i], path[..n])
  }

  /** The same letters, in either case. */
  predicate SameLetters(a: string, b: string) {
    && |a| == |b|
    && forall j :: 0 <= j < |a| ==>
         || a[j] == b[j]
         || ('A' <= a[j] <= 'Z' && 'a' <= b[j] <= 'z' && a[j] - 'A' == b[j] - 'a')
         || ('a' <= a[j] <= 'z' && 'A' <= b[j] <= 'Z' && a[j] - 'a' == b[j] - 'A')
  }

  lemma FoldsIff(a: string, b: string)
    ensures EqualFold(a, b) <==> SameLetters(a, b)
  {
    if |a| == |b| {
      forall j | 0 <= j < |a|
        ensures Lower(a[j]) == Lower(b[j]) <==>
                || a[j] == b[j]
                || ('A' <= a[j] <= 'Z' && 'a' <= b[j] <= 'z' && a[j] - 'A' == b[j] - 'a')
                || ('a' <= a[j] <= 'z' && 'A' <= b[j] <= 'Z' && a[j] - 'a' == b[j] - 'A')
      {
      }
    }
  }

  lemma KindsHaveNoDot(i: nat, kind: string)
    requires i < |WORKLOAD_KINDS| && EqualFold(WORKLOAD_KINDS[i], kind)
    ensures '.' !in kind && kind != ""
  {
    assert forall j :: 0 <= j < |WORKLOAD_KINDS| ==> '.' !in WORKLOAD_KINDS[j] && WORKLOAD_KINDS[j] != "";
    forall j | 0 <= j < |kind|
      ensures kind[j] != '.'
    {
      assert Lower(WORKLOAD_KINDS[i][j]) == Lower(kind[j]) && WORKLOAD_KINDS[i][j] in WORKLOAD_KINDS[i];
    }
  }

  /** The first dot of a path ends its first segment. */
  lemma FirstDot(kind: string, rest: string)
    requires '.' !in kind
    ensures var p := kind + ("." + rest);
            Find(p, '.') == |kind| && p[..|kind|] == kind && p[|kind| + 1..] == rest
  {
    var p := kind + ("." + rest);
    assert forall j :: 0 <= j < |kind| ==> p[j] == kind[j];
    assert p[|kind|] == '.';
  }

  /** A kind qualifier is dropped, with a leading dot or without. */
  lemma QualifierIsDropped(i: nat, kind: string, rest: string)
    requires i < |WORKLOAD_KINDS| && SameLetters(WORKLOAD_KINDS[i], kind)
    ensures Stripped(kind + ("." + rest)) == rest && Stripped("." + (kind + ("." + rest))) == rest
  {
    FoldsIff(WORKLOAD_KINDS[i], kind);
    KindsHaveNoDot(i, kind);
    var p := kind + ("." + rest);
    FirstDot(kind, rest);
    assert ("." + p)[1..] == p && p[0] == kind[0] && kind[0] in kind;
    assert IsWorkloadKind(p[..|kind|]);
  }

  /** Any other path stays as it is, but for a leading dot. */
  lemma OtherPathsStay(path: string)
    requires path == "" || path[0] != '.'
    requires !Qualified(path)
    ensures Stripped(path) == path && Stripped("." + path) == path
  {
    assert ("." + path)[1..] == path;
    var n := Find(path, '.');
    forall i | 0 <= i < |WORKLOAD_KINDS| && 0 < n < |path|
      ensures !EqualFold(WORKLOAD_KINDS[i], path[..n])
    {
      FoldsIff(WORKLOAD_KINDS[i], path[..n]);
    }
  }
}
