/** Field paths from diff evidence, resolved against a live object, and what a revert does to it. */
module RevertPath {
  import opened Options
  import opened RevertTree

  /** Asserting Unfold(0) opens a folded predicate; elsewhere it stays closed. */
  ghost predicate Unfold(k: nat) {
    k <= k
  }

  // ---------------------------------------------------------------- small string functions

  function Find(s: string, c: char): (i: nat)
    ensures i <= |s|
    ensures forall k :: 0 <= k < i ==> s[k] != c
    ensures i < |s| ==> s[i] == c
  {
    if s == "" || s[0] == c then 0 else 1 + Find(s[1..], c)
  }

  function Lower(c: char): char {
    if 'A' <= c <= 'Z' then c - 'A' + 'a' else c
  }

  predicate EqualFold(a: string, b: string) {
    |a| == |b| && forall i :: 0 <= i < |a| ==> Lower(a[i]) == Lower(b[i])
  }

  const WORKLOAD_KINDS :=
    ["Deployment", "DaemonSet", "StatefulSet", "ReplicaSet", "Rollout", "NodePool", "EC2NodeClass"]

  predicate IsWorkloadKind(s: string) {
    exists i :: 0 <= i < |WORKLOAD_KINDS| && EqualFold(WORKLOAD_KINDS[i], s)
  }

  /** The path without a leading dot and without a leading kind qualifier. */
  function Stripped(path: string): string {
    var p := if path != "" && path[0] == '.' then path[1..] else path;
    var dot := Find(p, '.');
    if 0 < dot < |p| && IsWorkloadKind(p[..dot]) then p[dot + 1..] else p
  }

  function Digits(s: string, acc: nat): Option<nat> {
    if s == "" then Some(acc)
    else if '0' <= s[0] <= '9' then Digits(s[1..], acc * 10 + (s[0] - '0') as nat)
    else None
  }

  /** A decimal integer that fits 64 bits, with an optional sign. */
  function Atoi(s: string): Option<int> {
    var neg := s != "" && s[0] == '-';
    var body := if s != "" && (s[0] == '-' || s[0] == '+') then s[1..] else s;
    if body == "" then None
    else match Digits(body, 0)
      case None => None
      case Some(n) =>
        var v: int := if neg then -(n as int) else n;
        if -0x8000_0000_0000_0000 <= v < 0x8000_0000_0000_0000 then Some(v) else None
  }

  predicate IsQuoted(tok: string) {
    |tok| >= 2 && (tok[0] == '\'' || tok[0] == '"') && tok[|tok| - 1] == tok[0]
  }

  // ---------------------------------------------------------------- keys

  /** Fields whose value is a flat map with user-chosen keys. */
  const FLAT_KEY_FIELDS :=
    {"labels", "annotations", "matchLabels", "nodeSelector", "limits", "requests", "data", "stringData", "binaryData"}

  /** The first `n` characters of `rest` are a key that ends where a path segment may end. */
  predicate Fits(keys: set<string>, rest: string, n: nat) {
    1 <= n <= |rest| && rest[..n] in keys && (n == |rest| || rest[n] == '.' || rest[n] == '[')
  }

  /** The longest fitting key of length at most `n`, or 0. */
  function Longest(keys: set<string>, rest: string, n: nat): (k: nat)
    requires n <= |rest|
    ensures k <= n && (k > 0 ==> Fits(keys, rest, k))
    ensures forall j :: k < j <= n ==> !Fits(keys, rest, j)
  {
    if n == 0 || Fits(keys, rest, n) then n else Longest(keys, rest, n - 1)
  }

  /** The length of the first path segment. */
  function Segment(rest: string): (n: nat)
    ensures n <= |rest| && (n < |rest| ==> rest[n] == '.' || rest[n] == '[')
    ensures forall k :: 0 <= k < n ==> rest[k] != '.' && rest[k] != '['
  {
    var dot, br := Find(rest, '.'), Find(rest, '[');
    if br < dot then br else dot
  }

  function KeysOf(node: Node): set<string> {
    if node.Obj? then node.members.Keys else {}
  }

  /** The length of the key an unquoted segment refers to: the longest one present, else the
      shortest segment. */
  function KeyLength(node: Node, rest: string): (n: nat)
    ensures n <= |rest|
    ensures rest != "" && rest[0] != '.' && rest[0] != '[' ==> n > 0
  {
    var best := Longest(KeysOf(node), rest, |rest|);
    if best > 0 then best else Segment(rest)
  }

  function DescendKey(node: Node, key: string): Node {
    if node.Obj? && key in node.members then node.members[key] else Nil
  }

  function DescendIndex(node: Node, i: int): Node {
    if InRange(node, i) then node.items[i] else Nil
  }

  // ---------------------------------------------------------------- tokens

  function Then(s: Step, rest: Option<seq<Step>>): Option<seq<Step>> {
    match rest case None => None case Some(ss) => Some([s] + ss)
  }

  /** The accessors of a stripped path, resolved from `node`; `prev` is the key just passed, and `flat`
      names the fields whose value is a flat map. */
  function Tokens(flat: set<string>, path: string, node: Node, prev: string): Option<seq<Step>>
    decreases |path|
  {
    if path == "" then Some([])
    else match path[0]
      case '.' => Tokens(flat, path[1..], node, prev)
      case '[' =>
        var end := Find(path, ']');
        if end == |path| then None
        else
          var tok, rest := path[1..end], path[end + 1..];
          if IsQuoted(tok) then
            var key := tok[1..|tok| - 1];
            Then(Key(key), Tokens(flat, rest, DescendKey(node, key), key))
          else (match Atoi(tok)
            case None => None
            case Some(i) => Then(Index(i), Tokens(flat, rest, DescendIndex(node, i), "")))
      case _ =>
        if prev in flat then Some([Key(path)])
        else
          var n := KeyLength(node, path);
          Then(Key(path[..n]), Tokens(flat, path[n..], DescendKey(node, path[..n]), path[..n]))
  }

  /** A bracketed accessor with a quoted key. */
  lemma QuotedKey(flat: set<string>, path: string, node: Node, prev: string, end: nat)
    requires path != "" && path[0] == '[' && end == Find(path, ']') < |path|
    requires 1 <= end && IsQuoted(path[1..end])
    ensures var key := path[1..end][1..end - 2];
            Tokens(flat, path, node, prev) == Then(Key(key), Tokens(flat, path[end + 1..], DescendKey(node, key), key))
  {
  }

  /** A bracketed accessor with an array index, or with something that is none. */
  lemma IndexKey(flat: set<string>, path: string, node: Node, prev: string, end: nat, idx: Option<int>)
    requires path != "" && path[0] == '[' && end == Find(path, ']') < |path|
    requires 1 <= end && !IsQuoted(path[1..end]) && idx == Atoi(path[1..end])
    ensures idx.None? ==> Tokens(flat, path, node, prev) == None
    ensures idx.Some? ==>
              Tokens(flat, path, node, prev)
              == Then(Index(idx.value), Tokens(flat, path[end + 1..], DescendIndex(node, idx.value), ""))
  {
  }

  /** The whole remainder is the key inside a flat map. */
  lemma FlatKey(flat: set<string>, path: string, node: Node, prev: string)
    requires path != "" && path[0] != '[' && path[0] != '.' && prev in flat
    ensures Tokens(flat, path, node, prev) == Then(Key(path), Tokens(flat, "", DescendKey(node, path), path))
  {
    assert [Key(path)] + [] == [Key(path)];
  }

  /** An unquoted key outside a flat map. */
  lemma LongKey(flat: set<string>, path: string, node: Node, prev: string, n: nat)
    requires path != "" && path[0] != '[' && path[0] != '.' && prev !in flat && n == KeyLength(node, path)
    ensures n <= |path|
    ensures Tokens(flat, path, node, prev)
         == Then(Key(path[..n]), Tokens(flat, path[n..], DescendKey(node, path[..n]), path[..n]))
  {
  }

  datatype Entry = Entry(path: string, prior: Node, hasOld: bool)

  /** The write or the removal at the location a path stands for. */
  function Undo(root: Node, e: Entry, location: Option<seq<Step>>): Outcome {
    match location
    case None => Outcome(root, false)
    case Some(steps) =>
      if steps == [] then Outcome(root, false)
      else if e.hasOld then SetAt(root, steps, Normalize(e.prior))
      else RemoveAt(root, steps)
  }

  /** The location of a recorded change in an object. */
  function Location(root: Node, e: Entry): Option<seq<Step>> {
    Tokens(FLAT_KEY_FIELDS, Stripped(e.path), root, "")
  }

  /** One recorded change undone. */
  function Revert(root: Node, e: Entry): Outcome {
    Undo(root, e, Location(root, e))
  }

  // ---------------------------------------------------------------- stability of tokens

  /** A path that yields no step yields none from any node. */
  lemma {:induction false} NoSteps(flat: set<string>, path: string, a: Node, b: Node, prev: string)
    requires Tokens(flat, path, a, prev) == Some([])
    ensures Tokens(flat, path, b, prev) == Some([])
    decreases |path|
  {
    if path != "" && path[0] == '.' { NoSteps(flat, path[1..], a, b, prev); }
  }

  /** An absent object and an empty one resolve a path alike. */
  lemma {:induction false} EmptyLikeNil(flat: set<string>, path: string, prev: string)
    ensures Tokens(flat, path, Obj(map[]), prev) == Tokens(flat, path, Nil, prev)
    decreases |path|
  {
    if path != "" && path[0] == '.' { EmptyLikeNil(flat, path[1..], prev); }
  }

  /** The key chosen for a segment is still chosen once it is present. */
  lemma KeyStays(node: Node, rest: string, v: Node)
    requires node.Obj? && rest != "" && rest[0] != '.' && rest[0] != '['
    ensures var n := KeyLength(node, rest);
            KeyLength(Obj(node.members[rest[..n] := v]), rest) == n
  {
    var keys, n := KeysOf(node), KeyLength(node, rest);
    var keys' := keys + {rest[..n]};
    assert KeysOf(Obj(node.members[rest[..n] := v])) == keys';
    assert Fits(keys', rest, n);
    forall j | n < j <= |rest|
      ensures !Fits(keys', rest, j)
    {
      assert rest[..j] != rest[..n];
      assert !Fits(keys, rest, j);
    }
    LongestIs(keys', rest, |rest|, n);
  }

  lemma {:induction false} LongestIs(keys: set<string>, rest: string, m: nat, n: nat)
    requires n <= m <= |rest| && Fits(keys, rest, n)
    requires forall j :: n < j <= m ==> !Fits(keys, rest, j)
    ensures Longest(keys, rest, m) == n
  {
    if m > n { LongestIs(keys, rest, m - 1, n); }
  }

  /** What remains of the path below one key step resolves alike after the write. */
  lemma BelowKey(flat: set<string>, rest: string, node: Node, key: string, v: Node, steps: seq<Step>)
    requires node.Obj? && Tokens(flat, rest, DescendKey(node, key), key) == Some(steps)
    requires steps != [] ==>
               Tokens(flat, rest, SetAt(Entered(node.members, key), steps, v).node, key) == Some(steps)
    ensures var child := if steps == [] then v else SetAt(Entered(node.members, key), steps, v).node;
            Tokens(flat, rest, DescendKey(Obj(node.members[key := child]), key), key) == Some(steps)
  {
    if steps == [] { NoSteps(flat, rest, DescendKey(node, key), v, key); }
  }

  lemma EnteredResolves(flat: set<string>, rest: string, node: Node, key: string)
    requires node.Obj?
    ensures Tokens(flat, rest, Entered(node.members, key), key) == Tokens(flat, rest, DescendKey(node, key), key)
  {
    EmptyLikeNil(flat, rest, key);
  }

  /** Resolving the same path again on the written object gives the same steps. */
  lemma {:induction false} TokensStay(flat: set<string>, path: string, node: Node, prev: string, v: Node)
    requires Tokens(flat, path, node, prev).Some? && Tokens(flat, path, node, prev).value != []
    requires SetAt(node, Tokens(flat, path, node, prev).value, v).ok
    ensures Tokens(flat, path, SetAt(node, Tokens(flat, path, node, prev).value, v).node, prev)
         == Tokens(flat, path, node, prev)
    decreases |path| + 1, 0, 1
  {
    if path[0] == '.' {
      TokensStay(flat, path[1..], node, prev, v);
    } else if path[0] != '[' {
      TokensStayName(flat, path, node, prev, v);
    } else if IsQuoted(path[1..Find(path, ']')]) {
      TokensStayQuoted(flat, path, node, prev, v);
    } else {
      TokensStayIndex(flat, path, node, prev, v);
    }
  }

  lemma TokensStayName(flat: set<string>, path: string, node: Node, prev: string, v: Node)
    requires path != "" && path[0] != '.' && path[0] != '[' && Tokens(flat, path, node, prev).Some?
    requires SetAt(node, Tokens(flat, path, node, prev).value, v).ok
    ensures Tokens(flat, path, SetAt(node, Tokens(flat, path, node, prev).value, v).node, prev)
         == Tokens(flat, path, node, prev)
    decreases |path| + 1, 0, 0
  {
    if prev !in flat {
      var steps, n := Tokens(flat, path, node, prev).value, KeyLength(node, path);
      TokensStayKey(flat, path[n..], node, path[..n], v, steps);
      KeyStays(node, path, DescendKey(SetAt(node, steps, v).node, path[..n]));
    }
  }

  lemma TokensStayQuoted(flat: set<string>, path: string, node: Node, prev: string, v: Node)
    requires path != "" && path[0] == '[' && Tokens(flat, path, node, prev).Some? && IsQuoted(path[1..Find(path, ']')])
    requires SetAt(node, Tokens(flat, path, node, prev).value, v).ok
    ensures Tokens(flat, path, SetAt(node, Tokens(flat, path, node, prev).value, v).node, prev)
         == Tokens(flat, path, node, prev)
    decreases |path| + 1, 0, 0
  {
    var end := Find(path, ']');
    var tok := path[1..end];
    TokensStayKey(flat, path[end + 1..], node, tok[1..|tok| - 1], v, Tokens(flat, path, node, prev).value);
  }

  lemma TokensStayIndex(flat: set<string>, path: string, node: Node, prev: string, v: Node)
    requires path != "" && path[0] == '[' && Tokens(flat, path, node, prev).Some? && !IsQuoted(path[1..Find(path, ']')])
    requires SetAt(node, Tokens(flat, path, node, prev).value, v).ok
    ensures Tokens(flat, path, SetAt(node, Tokens(flat, path, node, prev).value, v).node, prev)
         == Tokens(flat, path, node, prev)
    decreases |path| + 1, 0, 0
  {
    var end := Find(path, ']');
    var i, rest := Atoi(path[1..end]).value, path[end + 1..];
    if Tokens(flat, path, node, prev).value[1..] == [] {
      NoSteps(flat, rest, DescendIndex(node, i), v, "");
    } else {
      TokensStay(flat, rest, node.items[i], "", v);
    }
  }

  lemma TokensStayKey(flat: set<string>, rest: string, node: Node, key: string, v: Node, steps: seq<Step>)
    requires steps != [] && steps[0] == Key(key) && SetAt(node, steps, v).ok
    requires Tokens(flat, rest, DescendKey(node, key), key) == Some(steps[1..])
    ensures Tokens(flat, rest, DescendKey(SetAt(node, steps, v).node, key), key) == Some(steps[1..])
    decreases |rest| + 1, 1, 0
  {
    EnteredResolves(flat, rest, node, key);
    if steps[1..] != [] { TokensStay(flat, rest, Entered(node.members, key), key, v); }
    BelowKey(flat, rest, node, key, v, steps[1..]);
  }

  // ---------------------------------------------------------------- the laws

  lemma UndoWrites(root: Node, e: Entry, location: Option<seq<Step>>, q: seq<Step>)
    requires e.hasOld && Undo(root, e, location).ok
    ensures var out := Undo(root, e, location).node;
            && location.Some? && Get(out, location.value) == Some(Normalize(e.prior))
            && (Apart(location.value, q) ==> Get(out, q) == Get(root, q))
            && Undo(out, e, location) == Undo(root, e, location)
  {
    var steps, v := location.value, Normalize(e.prior);
    SetThenGet(root, steps, v);
    SetTwice(root, steps, v, v);
    if Apart(steps, q) { SetElsewhere(root, steps, v, q); }
  }

  lemma UndoRemoves(root: Node, e: Entry, location: Option<seq<Step>>, q: seq<Step>)
    requires !e.hasOld && Undo(root, e, location).ok
    ensures var out := Undo(root, e, location).node;
            && location.Some? && location.value != [] && Get(out, location.value) == None
            && (Apart(location.value, q) ==> Get(out, q) == Get(root, q))
            && (out == root <==> Gone(root, location.value))
  {
    var steps := location.value;
    RemoveThenGet(root, steps);
    if Apart(steps, q) { RemoveElsewhere(root, steps, q); }
    NoRemovalIff(root, steps);
  }

  /** What an undone entry leaves at its location: the old value with its whole numbers as integers, or
      nothing when the change had added it. */
  predicate Undone(e: Entry, found: Option<Node>) {
    if e.hasOld then found.Some? && SameValue(e.prior, found.value) && Normalized(found.value) else found.None?
  }

  /** After a successful write-back the path's location holds the normalised old value, and every
      location off the path is as it was. */
  lemma RevertWrites(root: Node, e: Entry, q: seq<Step>)
    requires e.hasOld && Revert(root, e).ok
    ensures Location(root, e).Some?
    ensures Undone(e, Get(Revert(root, e).node, Location(root, e).value))
    ensures Apart(Location(root, e).value, q) ==> Get(Revert(root, e).node, q) == Get(root, q)
  {
    UndoWrites(root, e, Location(root, e), q);
    NormalizeKeepsValue(e.prior);
    NormalizeNormalizes(e.prior);
  }

  /** The path names a location that can be written, or at which a removal is not refused. */
  predicate CanUndo(root: Node, e: Entry) {
    && Location(root, e).Some? && Location(root, e).value != []
    && if e.hasOld then Writable(root, Location(root, e).value) else !Refused(root, Location(root, e).value)
  }

  /** An entry is undone exactly when it can be. */
  lemma RevertSucceedsIff(root: Node, e: Entry)
    ensures Revert(root, e).ok <==> CanUndo(root, e)
  {
    UndoSucceedsIff(root, e, Location(root, e));
  }

  lemma UndoSucceedsIff(root: Node, e: Entry, location: Option<seq<Step>>)
    ensures Undo(root, e, location).ok <==>
            && location.Some? && location.value != []
            && (if e.hasOld then Writable(root, location.value) else !Refused(root, location.value))
  {
    if location.Some? && location.value != [] {
      SetSucceedsIff(root, location.value, Normalize(e.prior));
      RemoveFailsIff(root, location.value);
    }
  }

  /** The same path resolves to the same location afterwards, so writing back is idempotent. */
  lemma RevertTwice(root: Node, e: Entry)
    requires e.hasOld && Revert(root, e).ok
    ensures Location(Revert(root, e).node, e) == Location(root, e)
    ensures Revert(Revert(root, e).node, e) == Revert(root, e)
  {
    TokensStay(FLAT_KEY_FIELDS, Stripped(e.path), root, "", Normalize(e.prior));
    UndoWrites(root, e, Location(root, e), []);
  }

  /** Undoing an addition leaves nothing at the location and everything off the path unchanged; nothing
      changes at all exactly when the way to the location breaks off, as it does below anything missing
      or null. */
  lemma RevertRemoves(root: Node, e: Entry, q: seq<Step>, j: nat)
    requires !e.hasOld
    ensures Revert(root, e).ok ==>
              && Location(root, e).Some? && Location(root, e).value != []
              && var steps := Location(root, e).value;
                 && Get(Revert(root, e).node, steps) == None
                 && (Apart(steps, q) ==> Get(Revert(root, e).node, q) == Get(root, q))
                 && (Revert(root, e).node == root <==> Gone(root, steps))
                 && (Missing(root, steps, j) ==> Gone(root, steps))
  {
    if Revert(root, e).ok {
      UndoRemoves(root, e, Location(root, e), q);
      if Missing(root, Location(root, e).value, j) { RemoveBelowNothing(root, Location(root, e).value, j); }
    }
  }
}
