/** The revert as written: the tokenizer's index loop, the key search over a map in any order, and
    the read-modify-write loop. */
module RevertWorkload {
  import opened Options
  import opened RevertTree
  import opened RevertPath

  /** Picks the key by looking at the object's keys in whatever order the map gives them. */
  method MatchKey(node: Node, rest: string) returns (key: string, consumed: nat)
    requires rest != "" && rest[0] != '.' && rest[0] != '['
    ensures consumed == KeyLength(node, rest) && key == rest[..consumed]
  {
    var keys := KeysOf(node);
    var best, todo := "", keys;
    while todo != {}
      invariant todo <= keys
      invariant best != "" ==> Fits(keys, rest, |best|) && best == rest[..|best|]
      invariant forall k :: k in keys && k !in todo && |k| > |best| ==> !(k <= rest && Fits(keys, rest, |k|))
      decreases todo
    {
      var k :| k in todo;
      todo := todo - {k};
      if |k| > |best| && k <= rest && (|k| == |rest| || rest[|k|] == '.' || rest[|k|] == '[') {
        best := k;
        assert rest[..|k|] == k;
      }
    }
    if best != "" {
      forall j | |best| < j <= |rest|
        ensures !Fits(keys, rest, j)
      {
        assert rest[..j] <= rest;
      }
      LongestIs(keys, rest, |rest|, |best|);
      return best, |best|;
    }
    forall j | 1 <= j <= |rest|
      ensures !Fits(keys, rest, j)
    {
      assert rest[..j] <= rest;
    }
    var dot, br := Find(rest, '.'), Find(rest, '[');
    var end := if br < dot then br else dot;
    return rest[..end], end;
  }

  function Prefixed(done: seq<Step>, rest: Option<seq<Step>>): Option<seq<Step>> {
    match rest case None => None case Some(ss) => Some(done + ss)
  }

  lemma PrefixedThen(done: seq<Step>, s: Step, rest: Option<seq<Step>>)
    ensures Prefixed(done, Then(s, rest)) == Prefixed(done + [s], rest)
  {
    if rest.Some? { assert done + ([s] + rest.value) == done + [s] + rest.value; }
  }

  /** What a path stands for at a node, behind a key. */
  type Tokenizer = (string, Node, string) -> Option<seq<Step>>

  /** Folded: the tokenizer is the one of the specification. */
  ghost predicate IsTokens(flat: set<string>, tokens: Tokenizer) {
    forall k: nat :: Unfold(k) ==>
      forall path: string, node: Node, prev: string :: tokens(path, node, prev) == Tokens(flat, path, node, prev)
  }

  /** The path at `i` goes on with an accessor `step` that ends at `after` and leads to `child`. */
  ghost predicate StepAt(tokens: Tokenizer, p: string, i: nat, node: Node, prev: string,
                         step: Step, after: nat, child: Node, key: string)
    requires i < |p|
  {
    i < after <= |p| && tokens(p[i..], node, prev) == Then(step, tokens(p[after..], child, key))
  }

  lemma Unterminated(flat: set<string>, tokens: Tokenizer, path: string, node: Node, prev: string)
    requires IsTokens(flat, tokens) && path != "" && path[0] == '[' && Find(path, ']') == |path|
    ensures tokens(path, node, prev) == None
  {
    assert Unfold(0);
  }

  /** A bracketed accessor with a quoted key. */
  lemma QuotedAt(flat: set<string>, tokens: Tokenizer, p: string, i: nat, node: Node, prev: string, end: nat,
                 key: string)
    requires IsTokens(flat, tokens) && i < |p| && p[i] == '[' && end == Find(p[i..], ']') < |p| - i
    requires 1 <= end && IsQuoted(p[i..][1..end]) && key == p[i..][1..end][1..end - 2]
    ensures StepAt(tokens, p, i, node, prev, Key(key), i + end + 1, DescendKey(node, key), key)
  {
    assert Unfold(0);
    QuotedKey(flat, p[i..], node, prev, end);
    assert p[i..][end + 1..] == p[i + end + 1..];
  }

  /** A bracketed accessor with an array index, or with something that is none. */
  lemma IndexAt(flat: set<string>, tokens: Tokenizer, p: string, i: nat, node: Node, prev: string, end: nat,
                idx: Option<int>)
    requires IsTokens(flat, tokens) && i < |p| && p[i] == '[' && end == Find(p[i..], ']') < |p| - i
    requires 1 <= end && !IsQuoted(p[i..][1..end]) && idx == Atoi(p[i..][1..end])
    ensures idx.None? ==> tokens(p[i..], node, prev) == None
    ensures idx.Some? ==>
              StepAt(tokens, p, i, node, prev, Index(idx.value), i + end + 1, DescendIndex(node, idx.value), "")
  {
    assert Unfold(0);
    IndexKey(flat, p[i..], node, prev, end, idx);
    assert p[i..][end + 1..] == p[i + end + 1..];
  }

  /** One bracketed accessor at position `i`. */
  method ReadBracket(ghost flat: set<string>, ghost tokens: Tokenizer, p: string, i: nat, node: Node,
                     ghost prev: string)
    returns (step: Option<Step>, after: nat, child: Node, key: string)
    requires IsTokens(flat, tokens) && i < |p| && p[i] == '['
    ensures step.None? ==> tokens(p[i..], node, prev) == None
    ensures step.Some? ==> StepAt(tokens, p, i, node, prev, step.value, after, child, key)
  {
    var here := p[i..];
    var end := Find(here, ']');
    if end == |here| {
      Unterminated(flat, tokens, here, node, prev);
      return None, i, node, "";
    }
    var tok := here[1..end];
    after := i + end + 1;
    if IsQuoted(tok) {
      key := tok[1..|tok| - 1];
      QuotedAt(flat, tokens, p, i, node, prev, end, key);
      return Some(Key(key)), after, DescendKey(node, key), key;
    }
    var idx := Atoi(tok);
    IndexAt(flat, tokens, p, i, node, prev, end, idx);
    if idx.None? {
      return None, i, node, "";
    }
    return Some(Index(idx.value)), after, DescendIndex(node, idx.value), "";
  }

  lemma FlatKeyAt(flat: set<string>, tokens: Tokenizer, p: string, i: nat, node: Node, prev: string)
    requires IsTokens(flat, tokens) && i < |p| && p[i] != '[' && p[i] != '.' && prev in flat
    ensures StepAt(tokens, p, i, node, prev, Key(p[i..]), |p|, DescendKey(node, p[i..]), p[i..])
  {
    assert Unfold(0);
    FlatKey(flat, p[i..], node, prev);
    assert p[|p|..] == "";
  }

  /** Folded: `n` is the length of the key that the segment refers to. */
  ghost predicate Chosen(node: Node, rest: string, n: nat) {
    forall k: nat :: Unfold(k) ==> n == KeyLength(node, rest)
  }

  method ChooseKey(node: Node, rest: string) returns (key: string, consumed: nat)
    requires rest != "" && rest[0] != '.' && rest[0] != '['
    ensures key <= rest && consumed == |key| && Chosen(node, rest, |key|)
  {
    key, consumed := MatchKey(node, rest);
  }

  lemma MatchedKeyAt(flat: set<string>, tokens: Tokenizer, p: string, i: nat, node: Node, prev: string, key: string)
    requires IsTokens(flat, tokens) && i < |p| && p[i] != '[' && p[i] != '.' && prev !in flat
    requires key <= p[i..] && Chosen(node, p[i..], |key|)
    ensures StepAt(tokens, p, i, node, prev, Key(key), i + |key|, DescendKey(node, key), key)
  {
    assert Unfold(0);
    LongKey(flat, p[i..], node, prev, |key|);
    assert p[i..][..|key|] == key && p[i..][|key|..] == p[i + |key|..];
  }

  /** One unquoted key at position `i`; in a flat map the whole remainder is the key. */
  method ReadKey(flat: set<string>, ghost tokens: Tokenizer, p: string, i: nat, node: Node, prev: string)
    returns (key: string, after: nat)
    requires IsTokens(flat, tokens) && i < |p| && p[i] != '[' && p[i] != '.'
    ensures StepAt(tokens, p, i, node, prev, Key(key), after, DescendKey(node, key), key)
  {
    if prev in flat {
      FlatKeyAt(flat, tokens, p, i, node, prev);
      return p[i..], |p|;
    }
    var consumed;
    key, consumed := ChooseKey(node, p[i..]);
    MatchedKeyAt(flat, tokens, p, i, node, prev, key);
    after := i + consumed;
  }

  lemma DotAt(flat: set<string>, tokens: Tokenizer, p: string, i: nat, node: Node, prev: string)
    requires IsTokens(flat, tokens) && i < |p| && p[i] == '.'
    ensures tokens(p[i..], node, prev) == tokens(p[i + 1..], node, prev)
  {
    assert Unfold(0);
    assert p[i..][1..] == p[i + 1..];
  }

  lemma EndAt(flat: set<string>, tokens: Tokenizer, node: Node, prev: string)
    requires IsTokens(flat, tokens)
    ensures tokens("", node, prev) == Some([])
  {
    assert Unfold(0);
  }

  /** The index loop. Every turn consumes input. */
  method TokenizeStripped(flat: set<string>, ghost tokens: Tokenizer, p: string, root: Node)
    returns (steps: Option<seq<Step>>)
    requires IsTokens(flat, tokens)
    ensures steps == tokens(p, root, "")
  {
    var done: seq<Step>, node, prev, i := [], root, "", 0;
    ghost var goal := tokens(p, root, "");
    PrefixedNothing(goal);
    assert p[0..] == p;
    while i < |p|
      invariant 0 <= i <= |p|
      invariant goal == Prefixed(done, tokens(p[i..], node, prev))
      decreases |p| - i
    {
      if p[i] == '.' {
        DotAt(flat, tokens, p, i, node, prev);
        i := i + 1;
      } else if p[i] == '[' {
        var step, after, child, key := ReadBracket(flat, tokens, p, i, node, prev);
        if step.None? {
          return None;
        }
        PrefixedThen(done, step.value, tokens(p[after..], child, key));
        done, node, prev, i := done + [step.value], child, key, after;
      } else {
        var key, after := ReadKey(flat, tokens, p, i, node, prev);
        PrefixedThen(done, Key(key), tokens(p[after..], DescendKey(node, key), key));
        done, node, prev, i := done + [Key(key)], DescendKey(node, key), key, after;
      }
    }
    EndAt(flat, tokens, node, prev);
    assert p[i..] == "" && done + [] == done;
    return Some(done);
  }

  /** Walks the path with an index, following the live object. */
  method TokenizePath(flat: set<string>, path: string, root: Node) returns (steps: Option<seq<Step>>)
    ensures steps == Tokens(flat, Stripped(path), root, "")
  {
    ghost var tokens: Tokenizer := (path, node, prev) => Tokens(flat, path, node, prev);
    steps := TokenizeStripped(flat, tokens, Stripped(path), root);
  }

  lemma PrefixedNothing(rest: Option<seq<Step>>)
    ensures Prefixed([], rest) == rest
  {
    if rest.Some? { assert [] + rest.value == rest.value; }
  }

  // ---------------------------------------------------------------- one entry, all entries

  /** The path resolved against the live object, then the write or the removal. */
  method ApplyRevert(root: Node, e: Entry) returns (o: Outcome)
    ensures o == Revert(root, e)
  {
    var location := TokenizePath(FLAT_KEY_FIELDS, e.path, root);
    if location.None? || location.value == [] {
      return Outcome(root, false);
    }
    if e.hasOld {
      return SetAt(root, location.value, Normalize(e.prior));
    }
    return RemoveAt(root, location.value);
  }

  /** How one entry is undone; `Revert` is the instance the agent uses. */
  type Undoing = (Node, Entry) -> Outcome

  /** The entries undone one after the other, until one fails. */
  function UndoAll(undo: Undoing, root: Node, entries: seq<Entry>): Outcome {
    if entries == [] then Outcome(root, true)
    else
      var o := UndoAll(undo, root, entries[..|entries| - 1]);
      if o.ok then undo(o.node, entries[|entries| - 1]) else o
  }

  function RevertAll(root: Node, entries: seq<Entry>): Outcome {
    UndoAll(Revert, root, entries)
  }

  /** Folded: `undo` is the agent's way. */
  ghost predicate IsRevert(undo: Undoing) {
    forall k: nat :: Unfold(k) ==> undo == Revert
  }

  method ApplyNext(ghost undo: Undoing, root: Node, e: Entry) returns (o: Outcome)
    requires IsRevert(undo)
    ensures o == undo(root, e)
  {
    assert Unfold(0);
    o := ApplyRevert(root, e);
  }

  method ApplyEach(ghost undo: Undoing, root: Node, entries: seq<Entry>) returns (o: Outcome)
    requires IsRevert(undo)
    ensures o == UndoAll(undo, root, entries)
  {
    o := Outcome(root, true);
    for i := 0 to |entries|
      invariant o.ok && o == UndoAll(undo, root, entries[..i])
    {
      assert entries[..i + 1][..i] == entries[..i];
      o := ApplyNext(undo, o.node, entries[i]);
      if !o.ok {
        UndoAllFails(undo, root, entries, i + 1);
        return;
      }
    }
    assert entries[..|entries|] == entries;
  }

  method ApplyAll(root: Node, entries: seq<Entry>) returns (o: Outcome)
    ensures o == RevertAll(root, entries)
  {
    o := ApplyEach(Revert, root, entries);
  }

  /** Once an entry fails, the outcome is that failure. */
  lemma {:induction false} UndoAllFails(undo: Undoing, root: Node, entries: seq<Entry>, n: nat)
    requires n <= |entries| && !UndoAll(undo, root, entries[..n]).ok
    ensures UndoAll(undo, root, entries) == UndoAll(undo, root, entries[..n])
    decreases |entries|
  {
    if n == |entries| {
      assert entries[..n] == entries;
    } else {
      var init := entries[..|entries| - 1];
      assert init[..n] == entries[..n];
      UndoAllFails(undo, root, init, n);
    }
  }

  // ---------------------------------------------------------------- the batch law

  /** The object that entry `k` is undone on. */
  function Before(root: Node, entries: seq<Entry>, k: nat): Node
    requires k <= |entries|
  {
    RevertAll(root, entries[..k]).node
  }

  /** The location an entry is undone at, resolved on the given object. */
  function Spot(node: Node, e: Entry): seq<Step> {
    if Location(node, e).Some? then Location(node, e).value else []
  }

  /** The location entry `k` is undone at. */
  function Place(root: Node, entries: seq<Entry>, k: nat): seq<Step>
    requires k < |entries|
  {
    Spot(Before(root, entries, k), entries[k])
  }

  lemma RevertOne(root: Node, e: Entry, q: seq<Step>)
    requires Revert(root, e).ok
    ensures Location(root, e).Some? && Undone(e, Get(Revert(root, e).node, Location(root, e).value))
    ensures Apart(Location(root, e).value, q) ==> Get(Revert(root, e).node, q) == Get(root, q)
  {
    if e.hasOld { RevertWrites(root, e, q); } else { RevertRemoves(root, e, q, 0); }
  }

  /** The last entry of a batch that succeeds. */
  lemma LastReverts(root: Node, entries: seq<Entry>, q: seq<Step>)
    requires entries != [] && RevertAll(root, entries).ok
    ensures var k, out := |entries| - 1, RevertAll(root, entries).node;
            && RevertAll(root, entries[..k]).ok
            && Undone(entries[k], Get(out, Place(root, entries, k)))
            && (Apart(Place(root, entries, k), q) ==> Get(out, q) == Get(Before(root, entries, k), q))
  {
    RevertOne(Before(root, entries, |entries| - 1), entries[|entries| - 1], q);
  }

  /** What is looked at is left alone by every entry that is off it. */
  ghost predicate LeavesAlone<T(!new)>(undo: Undoing, off: (Node, Entry) -> bool, look: Node -> T) {
    forall n, e :: undo(n, e).ok && off(n, e) ==> look(undo(n, e).node) == look(n)
  }

  /** What no entry from `i` on touches is what the entries before them left. */
  lemma {:induction false} UntouchedStays<T(!new)>(undo: Undoing, off: (Node, Entry) -> bool, look: Node -> T,
                                                   root: Node, entries: seq<Entry>, i: nat)
    requires UndoAll(undo, root, entries).ok && i <= |entries| && LeavesAlone(undo, off, look)
    requires forall k :: i <= k < |entries| ==> off(UndoAll(undo, root, entries[..k]).node, entries[k])
    ensures UndoAll(undo, root, entries[..i]).ok
    ensures look(UndoAll(undo, root, entries).node) == look(UndoAll(undo, root, entries[..i]).node)
  {
    if i == |entries| {
      assert entries[..i] == entries;
    } else {
      var n := |entries| - 1;
      var init := entries[..n];
      assert forall k :: 0 <= k <= n ==> init[..k] == entries[..k];
      UntouchedStays(undo, off, look, root, init, i);
    }
  }

  function OffBy(q: seq<Step>): (Node, Entry) -> bool {
    (n: Node, e: Entry) => Apart(Spot(n, e), q)
  }

  function LookAt(q: seq<Step>): Node -> Option<Node> {
    (n: Node) => Get(n, q)
  }

  lemma ApartIsLeftAlone(q: seq<Step>)
    ensures LeavesAlone(Revert, OffBy(q), LookAt(q))
  {
    forall n, e | Revert(n, e).ok && OffBy(q)(n, e)
      ensures LookAt(q)(Revert(n, e).node) == LookAt(q)(n)
    {
      RevertOne(n, e, q);
    }
  }

  /** A location apart from those of the entries from `i` on is what the entries before them left. */
  lemma LaterKeep(root: Node, entries: seq<Entry>, i: nat, q: seq<Step>)
    requires RevertAll(root, entries).ok && i <= |entries|
    requires forall k :: i <= k < |entries| ==> Apart(Place(root, entries, k), q)
    ensures RevertAll(root, entries[..i]).ok
    ensures Get(RevertAll(root, entries).node, q) == Get(Before(root, entries, i), q)
  {
    ApartIsLeftAlone(q);
    forall k | i <= k < |entries|
      ensures OffBy(q)(UndoAll(Revert, root, entries[..k]).node, entries[k])
    {
      assert Apart(Place(root, entries, k), q);
    }
    UntouchedStays(Revert, OffBy(q), LookAt(q), root, entries, i);
  }

  /** After a batch that succeeds, every location apart from all the batch's locations is unchanged. */
  lemma BatchFrame(root: Node, entries: seq<Entry>, q: seq<Step>)
    requires RevertAll(root, entries).ok
    requires forall k :: 0 <= k < |entries| ==> Apart(Place(root, entries, k), q)
    ensures Get(RevertAll(root, entries).node, q) == Get(root, q)
  {
    LaterKeep(root, entries, 0, q);
  }

  /** What entry `i` leaves at its location. */
  lemma UndoneAtOnce(root: Node, entries: seq<Entry>, i: nat)
    requires i < |entries| && RevertAll(root, entries[..i + 1]).ok
    ensures Undone(entries[i], Get(Before(root, entries, i + 1), Place(root, entries, i)))
  {
    LastReverts(root, entries[..i + 1], []);
    assert entries[..i + 1][..i] == entries[..i];
  }

  /** After a batch that succeeds, an entry whose location is apart from those of all later entries is still
      undone: its location holds the old value, or nothing when the change had added it. */
  lemma BatchHolds(root: Node, entries: seq<Entry>, i: nat)
    requires RevertAll(root, entries).ok && i < |entries|
    requires forall k :: i < k < |entries| ==> Apart(Place(root, entries, k), Place(root, entries, i))
    ensures Undone(entries[i], Get(RevertAll(root, entries).node, Place(root, entries, i)))
  {
    LaterKeep(root, entries, i + 1, Place(root, entries, i));
    UndoneAtOnce(root, entries, i);
  }

  /** All entries can be undone exactly when each can, on what those before it leave. */
  lemma {:induction false} UndoAllIff(undo: Undoing, root: Node, entries: seq<Entry>)
    ensures UndoAll(undo, root, entries).ok <==>
            forall k :: 0 <= k < |entries| ==> undo(UndoAll(undo, root, entries[..k]).node, entries[k]).ok
  {
    if entries != [] {
      var n := |entries| - 1;
      var init := entries[..n];
      UndoAllIff(undo, root, init);
      assert forall k :: 0 <= k < n ==> init[..k] == entries[..k] && init[k] == entries[k];
    }
  }

  /** A batch succeeds exactly when the path of every entry names a location that can be written, or at which
      a removal is not refused, in the object that the entries before it leave. */
  lemma BatchSucceedsIff(root: Node, entries: seq<Entry>)
    ensures RevertAll(root, entries).ok <==>
            forall k :: 0 <= k < |entries| ==> CanUndo(Before(root, entries, k), entries[k])
  {
    UndoAllIff(Revert, root, entries);
    forall k | 0 <= k < |entries|
      ensures Revert(Before(root, entries, k), entries[k]).ok <==> CanUndo(Before(root, entries, k), entries[k])
    {
      RevertSucceedsIff(Before(root, entries, k), entries[k]);
    }
  }

  // ---------------------------------------------------------------- the read-modify-write cycle

  datatype Answer = Accepted | Conflict | Refused

  const REVERT_ATTEMPTS := 3

  /** A version of the live object, and whether this call wrote it. */
  datatype Written = Written(node: Node, ours: bool)

  /** An update request with its answer. */
  datatype Sent = Sent(node: Node, answer: Answer)

  /** The API server: every accepted write makes a new version. */
  class ApiServer {
    var live: Node
    var version: nat
    /** All versions so far. */
    ghost var history: seq<Written>
    /** What the reads of this call gave, and its update requests. */
    ghost var seen: seq<Option<Node>>
    ghost var sent: seq<Sent>

    ghost predicate Valid()
      reads this
    {
      |history| == version + 1 && history[version].node == live
    }

    constructor (live: Node)
      ensures Valid() && this.live == live && history == [Written(live, false)] && seen == [] && sent == []
    {
      this.live, version, history, seen, sent := live, 0, [Written(live, false)], [], [];
    }

    /** Controllers and other clients write, any number of times. */
    method Others()
      requires Valid()
      modifies this
      ensures Valid() && old(history) <= history && seen == old(seen) && sent == old(sent)
      ensures forall k :: |old(history)| <= k < |history| ==> !history[k].ours
    {
      var n: nat := *;
      while n > 0
        invariant Valid() && old(history) <= history && seen == old(seen) && sent == old(sent)
        invariant forall k :: |old(history)| <= k < |history| ==> !history[k].ours
      {
        var node: Node := *;
        live, version, history := node, version + 1, history + [Written(node, false)];
        n := n - 1;
      }
    }

    /** The live object and its version, unless the request fails. */
    method Read() returns (r: Option<(Node, nat)>)
      requires Valid()
      modifies this`seen
      ensures r.Some? ==> r.value == (live, version) && seen == old(seen) + [Some(live)]
      ensures r.None? ==> seen == old(seen) + [None]
    {
      var readable: bool := *;
      seen := seen + [if readable then Some(live) else None];
      return if readable then Some((live, version)) else None;
    }

    /** An update is accepted only at the version it was made from. Any request may fail, and a failed one
        may have been accepted all the same. */
    method Update(node: Node, read: nat) returns (answer: Answer)
      requires Valid()
      modifies this
      ensures Valid() && seen == old(seen) && sent == old(sent) + [Sent(node, answer)]
      ensures answer.Accepted? ==> read == old(version) && history == old(history) + [Written(node, true)]
      ensures answer.Conflict? ==> history == old(history)
      ensures answer.Refused? ==>
                history == old(history) || (read == old(version) && history == old(history) + [Written(node, true)])
    {
      var arrives: bool, answered: bool := *, *;
      if arrives && read == version {
        live, version, history := node, version + 1, history + [Written(node, true)];
        answer := if answered then Accepted else Refused;
      } else {
        answer := if arrives && answered then Conflict else Refused;
      }
      sent := sent + [Sent(node, answer)];
    }
  }

  /** What a call makes of the object it reads. */
  type Goal = Node -> Outcome

  /** Folded: the goal is to undo the entries. */
  ghost predicate IsGoal(goal: Goal, entries: seq<Entry>) {
    forall k: nat :: Unfold(k) ==> forall n :: goal(n) == RevertAll(n, entries)
  }

  method ApplyGoal(ghost goal: Goal, root: Node, entries: seq<Entry>) returns (o: Outcome)
    requires IsGoal(goal, entries)
    ensures o == goal(root)
  {
    assert Unfold(0);
    o := ApplyAll(root, entries);
  }

  /** Every version this call wrote is what it makes of the version before. */
  ghost predicate OnTheVersionBefore(history: seq<Written>, begin: nat, goal: Goal) {
    forall k :: 0 < begin <= k < |history| && history[k].ours ==>
      goal(history[k - 1].node) == Outcome(history[k].node, true)
  }

  /** At most one version from `begin` on was written by this call. */
  ghost predicate AtMostOnce(history: seq<Written>, begin: nat) {
    forall j, k :: begin <= j < |history| && begin <= k < |history| && history[j].ours && history[k].ours ==> j == k
  }

  ghost predicate NoneOurs(history: seq<Written>, begin: nat) {
    forall k :: begin <= k < |history| ==> !history[k].ours
  }

  /** The first `n` reads were answered and each was followed by the update that the goal asks for, which met
      a conflict. */
  ghost predicate Conflicts(seen: seq<Option<Node>>, sent: seq<Sent>, goal: Goal, n: nat) {
    && n <= |seen| && n <= |sent|
    && forall i :: 0 <= i < n ==>
         seen[i].Some? && goal(seen[i].value) == Outcome(sent[i].node, true) && sent[i].answer.Conflict?
  }

  /** The last of at most three tries, the others having met conflicts: its read failed, or the goal could not be
      reached on what it read, or its update was answered, and only the last permitted one with a conflict. */
  ghost predicate LastTry(seen: seq<Option<Node>>, sent: seq<Sent>, goal: Goal, ok: bool) {
    && 0 < |seen| <= 3
    && var n := |seen| - 1;
       && Conflicts(seen, sent, goal, n)
       && if seen[n].None? || !goal(seen[n].value).ok then |sent| == n && !ok
          else
            && |sent| == |seen| && sent[n].node == goal(seen[n].value).node
            && (ok <==> sent[n].answer.Accepted?)
            && (sent[n].answer.Conflict? ==> |seen| == 3)
  }

  /** A write that lands on the version it was made from. */
  lemma LandsOnce(history: seq<Written>, begin: nat, goal: Goal, live: Node, node: Node)
    requires 0 < begin <= |history| && NoneOurs(history, begin) && history[|history| - 1].node == live
    requires goal(live) == Outcome(node, true)
    ensures OnTheVersionBefore(history + [Written(node, true)], begin, goal)
    ensures AtMostOnce(history + [Written(node, true)], begin)
  {
  }

  /** One attempt. Only a conflict is worth another. */
  method Attempt(server: ApiServer, ghost begin: nat, ghost goal: Goal, entries: seq<Entry>) returns (answer: Answer)
    requires server.Valid() && IsGoal(goal, entries) && 0 < begin <= |server.history| && NoneOurs(server.history, begin)
    modifies server
    ensures server.Valid() && old(server.history) <= server.history
    ensures OnTheVersionBefore(server.history, begin, goal) && AtMostOnce(server.history, begin)
    ensures answer.Conflict? ==> NoneOurs(server.history, begin)
    ensures answer.Accepted? ==> |server.history| > begin && server.history[|server.history| - 1].ours
    ensures Tried(old(server.seen), old(server.sent), server.seen, server.sent, goal, answer)
  {
    server.Others();
    var read := server.Read();
    if read.None? {
      return Refused;
    }
    var (live, version) := read.value;
    var o := ApplyGoal(goal, live, entries);
    if !o.ok {
      return Refused;
    }
    server.Others();
    if version == server.version { LandsOnce(server.history, begin, goal, live, o.node); }
    answer := server.Update(o.node, version);
  }

  /** One try: a read, and an update of what the goal makes of it unless that fails. */
  ghost predicate Tried(seen: seq<Option<Node>>, sent: seq<Sent>, seen': seq<Option<Node>>, sent': seq<Sent>,
                        goal: Goal, answer: Answer) {
    exists r :: seen' == seen + [r] &&
      if r.None? || !goal(r.value).ok then sent' == sent && answer.Refused?
      else sent' == sent + [Sent(goal(r.value).node, answer)]
  }

  /** A try behind conflicts is another conflict, or the last. */
  lemma TryEnds(seen: seq<Option<Node>>, sent: seq<Sent>, seen': seq<Option<Node>>, sent': seq<Sent>, goal: Goal,
                answer: Answer)
    requires Tried(seen, sent, seen', sent', goal, answer) && |seen| == |sent| < REVERT_ATTEMPTS
    requires Conflicts(seen, sent, goal, |seen|)
    ensures answer.Conflict? ==> |seen'| == |sent'| == |seen| + 1 && Conflicts(seen', sent', goal, |seen'|)
    ensures !answer.Conflict? || |seen'| == REVERT_ATTEMPTS ==> LastTry(seen', sent', goal, answer.Accepted?)
  {
  }

  method Attempts(server: ApiServer, ghost goal: Goal, entries: seq<Entry>) returns (ok: bool)
    requires server.Valid() && IsGoal(goal, entries) && server.seen == [] && server.sent == []
    modifies server
    ensures server.Valid() && old(server.history) <= server.history
    ensures OnTheVersionBefore(server.history, |old(server.history)|, goal)
    ensures AtMostOnce(server.history, |old(server.history)|)
    ensures ok ==> !NoneOurs(server.history, |old(server.history)|)
    ensures LastTry(server.seen, server.sent, goal, ok)
  {
    var attempt := 0;
    while true
      invariant server.Valid() && old(server.history) <= server.history && 0 <= attempt < REVERT_ATTEMPTS
      invariant NoneOurs(server.history, |old(server.history)|)
      invariant |server.seen| == |server.sent| == attempt && Conflicts(server.seen, server.sent, goal, attempt)
      decreases REVERT_ATTEMPTS - attempt
    {
      ghost var seen, sent := server.seen, server.sent;
      var answer := Attempt(server, |old(server.history)|, goal, entries);
      TryEnds(seen, sent, server.seen, server.sent, goal, answer);
      if answer != Conflict || attempt == REVERT_ATTEMPTS - 1 {
        return answer == Accepted;
      }
      attempt := attempt + 1;
    }
  }

  /** Reads, undoes every entry, updates, and retries on a conflict. Whatever others write in between: this
      call writes at most one version, which is exactly the version before it with the entries undone, so
      that no other update is lost; and it reports success only when it wrote one. It gives up only without
      entries, on a failed read, on an object whose entries cannot be undone, on a refused update, or after
      three conflicts. */
  method ReadModifyWrite(server: ApiServer, entries: seq<Entry>) returns (ok: bool)
    requires server.Valid()
    modifies server
    ensures server.Valid() && old(server.history) <= server.history
    ensures OnTheVersionBefore(server.history, |old(server.history)|, n => RevertAll(n, entries))
    ensures AtMostOnce(server.history, |old(server.history)|)
    ensures ok ==> !NoneOurs(server.history, |old(server.history)|)
    ensures if entries == [] then !ok && server.seen == [] && server.sent == []
            else LastTry(server.seen, server.sent, n => RevertAll(n, entries), ok)
  {
    server.seen, server.sent := [], [];
    if |entries| == 0 {
      return false;
    }
    ok := Attempts(server, n => RevertAll(n, entries), entries);
  }
}
