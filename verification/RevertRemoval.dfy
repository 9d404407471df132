/** Undoing an addition twice: exactly when the second removal finds nothing more to remove. */
module RevertRemoval {
  import opened Options
  import opened RevertTree
  import opened RevertPath

  /** The first accessor of a path, the path behind it, and where it leads. */
  datatype Part = Part(step: Step, rest: string, child: Node, key: string)

  function First(flat: set<string>, path: string, node: Node, prev: string): (p: Part)
    requires path != "" && path[0] != '.' && Tokens(flat, path, node, prev).Some?
    ensures |p.rest| < |path|
    ensures Tokens(flat, path, node, prev) == Then(p.step, Tokens(flat, p.rest, p.child, p.key))
  {
    if path[0] == '[' then
      var end := Find(path, ']');
      var tok, rest := path[1..end], path[end + 1..];
      if IsQuoted(tok) then
        var key := tok[1..|tok| - 1];
        Part(Key(key), rest, DescendKey(node, key), key)
      else
        var i := Atoi(tok).value;
        Part(Index(i), rest, DescendIndex(node, i), "")
    else if prev in flat then
      FlatKey(flat, path, node, prev);
      Part(Key(path), "", DescendKey(node, path), path)
    else
      var n := KeyLength(node, path);
      LongKey(flat, path, node, prev, n);
      Part(Key(path[..n]), path[n..], DescendKey(node, path[..n]), path[..n])
  }

  /** Where the last accessor of a path is taken: the container, the path left there, and the key before. */
  datatype Site = Site(node: Node, rest: string, prev: string)

  predicate Resolves(flat: set<string>, path: string, node: Node, prev: string) {
    Tokens(flat, path, node, prev).Some? && Tokens(flat, path, node, prev).value != []
  }

  function LastSite(flat: set<string>, path: string, node: Node, prev: string): (s: Site)
    requires Resolves(flat, path, node, prev)
    ensures s.rest != "" && s.rest[0] != '.'
    decreases |path|
  {
    if path[0] == '.' then LastSite(flat, path[1..], node, prev)
    else
      var p := First(flat, path, node, prev);
      if Tokens(flat, p.rest, p.child, p.key).value == [] then Site(node, path, prev)
      else LastSite(flat, p.rest, p.child, p.key)
  }

  /** The longest present key that fits is `rest[..n]`. With that key out of the way the path means a
      shorter present key, or else its first segment: below a present key it must lead to nothing, and
      below an absent one it must at least be well formed. */
  predicate NextHarmless(flat: set<string>, members: map<string, Node>, rest: string, n: nat)
    requires 0 < n <= |rest|
  {
    var m := Longest(members.Keys, rest, n - 1);
    if m == 0 then
      var seg := Segment(rest);
      seg >= n || Tokens(flat, rest[seg..], Nil, rest[..seg]).Some?
    else
      var child := members[rest[..m]];
      match Tokens(flat, rest[m..], child, rest[..m])
      case None => false
      case Some(more) => more != [] && (child == Nil || Gone(child, more))
  }

  /** A second removal does no harm: nothing is there to remove the first time, or the last accessor names
      its key whatever keys are present, or the key the path means next leads to nothing. */
  predicate Harmless(flat: set<string>, s: Site)
    requires s.rest != "" && s.rest[0] != '.'
  {
    || !s.node.Obj?
    || s.rest[0] == '['
    || s.prev in flat
    || s.rest[..KeyLength(s.node, s.rest)] !in s.node.members
    || NextHarmless(flat, s.node.members, s.rest, KeyLength(s.node, s.rest))
  }

  /** Removing along the path once more succeeds and changes nothing. */
  predicate Again(flat: set<string>, path: string, node: Node, prev: string) {
    && Resolves(flat, path, node, prev)
    && RemoveAt(node, Tokens(flat, path, node, prev).value) == Outcome(node, true)
  }

  // ---------------------------------------------------------------- the last accessor

  lemma LongestWithout(keys: set<string>, rest: string, n: nat)
    requires 0 < n <= |rest| && Longest(keys, rest, |rest|) == n
    ensures Longest(keys - {rest[..n]}, rest, |rest|) == Longest(keys, rest, n - 1)
  {
    var keys', m := keys - {rest[..n]}, Longest(keys, rest, n - 1);
    forall j | m < j <= |rest|
      ensures !Fits(keys', rest, j)
    {
      if j != n { assert !Fits(keys, rest, j); }
    }
    if m > 0 {
      assert |rest[..m]| != |rest[..n]|;
      LongestIs(keys', rest, |rest|, m);
    }
  }

  /** A present key at a segment boundary fits. */
  lemma PresentFits(node: Node, rest: string, n: nat)
    requires rest != "" && rest[0] != '.' && rest[0] != '[' && node.Obj? && n == KeyLength(node, rest)
    requires rest[..n] in node.members
    ensures 0 < n <= |rest| && Longest(KeysOf(node), rest, |rest|) == n && Segment(rest) <= n
  {
    if Longest(KeysOf(node), rest, |rest|) == 0 { assert Fits(KeysOf(node), rest, n); }
    assert Fits(KeysOf(node), rest, n);
  }

  /** What the path means once the longest present key is gone. */
  lemma NextKey(node: Node, rest: string, n: nat)
    requires rest != "" && rest[0] != '.' && rest[0] != '[' && node.Obj? && n == KeyLength(node, rest)
    requires rest[..n] in node.members
    ensures 0 < n <= |rest|
    ensures var after, m := Obj(node.members - {rest[..n]}), Longest(node.members.Keys, rest, n - 1);
            && KeyLength(after, rest) == (if m > 0 then m else Segment(rest))
            && (m == 0 ==> rest[..Segment(rest)] !in after.members)
            && (m > 0 ==> rest[..m] in after.members && after.members[rest[..m]] == node.members[rest[..m]])
  {
    var keys := KeysOf(node);
    var after, m := Obj(node.members - {rest[..n]}), Longest(keys, rest, n - 1);
    PresentFits(node, rest, n);
    assert KeysOf(after) == keys - {rest[..n]};
    LongestWithout(keys, rest, n);
    if m > 0 {
      assert |rest[..m]| != |rest[..n]|;
    } else if rest[..Segment(rest)] in after.members {
      assert Fits(KeysOf(after), rest, Segment(rest));
    }
  }

  /** The rest of the path below an absent key. */
  lemma BelowAbsent(members: map<string, Node>, k: string, more: seq<Step>)
    requires k !in members
    ensures RemoveAt(Obj(members), [Key(k)] + more) == Outcome(Obj(members), true)
  {
    if more == [] {
      assert [Key(k)] + more == [Key(k)] && members - {k} == members;
    }
  }

  lemma BelowPresent(members: map<string, Node>, k: string, more: seq<Step>)
    requires k in members
    ensures RemoveAt(Obj(members), [Key(k)] + more) == Outcome(Obj(members), true)
            <==> more != [] && (members[k] == Nil || Gone(members[k], more))
  {
    if more == [] {
      assert [Key(k)] + more == [Key(k)] && k !in (members - {k});
    } else {
      assert ([Key(k)] + more)[1..] == more;
      NoRemovalIff(Obj(members), [Key(k)] + more);
    }
  }

  /** An unquoted key that is present. */
  lemma NamePresent(flat: set<string>, path: string, node: Node, prev: string, m: nat)
    requires path != "" && path[0] != '.' && path[0] != '[' && prev !in flat
    requires node.Obj? && m == KeyLength(node, path) && path[..m] in node.members
    ensures var child := node.members[path[..m]];
            var below := Tokens(flat, path[m..], child, path[..m]);
            Again(flat, path, node, prev)
            <==> below.Some? && below.value != [] && (child == Nil || Gone(child, below.value))
  {
    LongKey(flat, path, node, prev, m);
    var below := Tokens(flat, path[m..], node.members[path[..m]], path[..m]);
    if below.Some? { BelowPresent(node.members, path[..m], below.value); }
  }

  /** An unquoted key that is absent. */
  lemma NameAbsent(flat: set<string>, path: string, node: Node, prev: string, m: nat)
    requires path != "" && path[0] != '.' && path[0] != '[' && prev !in flat
    requires node.Obj? && m == KeyLength(node, path) && path[..m] !in node.members
    ensures Again(flat, path, node, prev) <==> Tokens(flat, path[m..], Nil, path[..m]).Some?
  {
    LongKey(flat, path, node, prev, m);
    var below := Tokens(flat, path[m..], Nil, path[..m]);
    if below.Some? { BelowAbsent(node.members, path[..m], below.value); }
  }

  lemma LastName(flat: set<string>, path: string, node: Node, prev: string, n: nat)
    requires path != "" && path[0] != '.' && path[0] != '[' && prev !in flat
    requires node.Obj? && n == KeyLength(node, path) && path[..n] in node.members
    requires Tokens(flat, path[n..], DescendKey(node, path[..n]), path[..n]) == Some([])
    ensures 0 < n <= |path|
    ensures Again(flat, path, Obj(node.members - {path[..n]}), prev) <==> NextHarmless(flat, node.members, path, n)
  {
    var after := Obj(node.members - {path[..n]});
    NextKey(node, path, n);
    var m := Longest(node.members.Keys, path, n - 1);
    if m > 0 {
      NamePresent(flat, path, after, prev, m);
    } else {
      PresentFits(node, path, n);
      NameAbsent(flat, path, after, prev, Segment(path));
      if Segment(path) == n { NoSteps(flat, path[n..], DescendKey(node, path[..n]), Nil, path[..n]); }
    }
  }

  lemma LastNamed(flat: set<string>, path: string, node: Node, prev: string, key: string, rest: string)
    requires Tokens(flat, rest, DescendKey(node, key), key) == Some([]) && node.Obj?
    requires var after := Obj(node.members - {key});
             Tokens(flat, path, after, prev) == Then(Key(key), Tokens(flat, rest, DescendKey(after, key), key))
    ensures Again(flat, path, Obj(node.members - {key}), prev)
  {
    var after := Obj(node.members - {key});
    NoSteps(flat, rest, DescendKey(node, key), DescendKey(after, key), key);
    BelowAbsent(after.members, key, []);
    assert [Key(key)] + [] == [Key(key)];
  }

  /** The last accessor on its own. */
  lemma LastAgain(flat: set<string>, path: string, node: Node, prev: string)
    requires path != "" && path[0] != '.' && Resolves(flat, path, node, prev)
    requires |Tokens(flat, path, node, prev).value| == 1 && RemoveAt(node, Tokens(flat, path, node, prev).value).ok
    ensures Again(flat, path, RemoveAt(node, Tokens(flat, path, node, prev).value).node, prev)
            <==> Harmless(flat, Site(node, path, prev))
  {
    var p := First(flat, path, node, prev);
    var steps := Tokens(flat, path, node, prev).value;
    assert steps == [p.step] && Tokens(flat, p.rest, p.child, p.key) == Some([]);
    assert node.Obj? && p.step == Key(p.key);
    if p.key !in node.members {
      assert node.members - {p.key} == node.members;
    } else if path[0] == '[' || prev in flat {
      LastNamed(flat, path, node, prev, p.key, p.rest);
    } else {
      LastName(flat, path, node, prev, KeyLength(node, path));
    }
  }

  // ---------------------------------------------------------------- along the path

  lemma {:induction false} NilSite(flat: set<string>, path: string, prev: string)
    requires Resolves(flat, path, Nil, prev)
    ensures LastSite(flat, path, Nil, prev).node == Nil
    decreases |path|
  {
    if path[0] == '.' {
      NilSite(flat, path[1..], prev);
    } else {
      var p := First(flat, path, Nil, prev);
      if Tokens(flat, p.rest, p.child, p.key).value != [] { NilSite(flat, p.rest, p.key); }
    }
  }

  /** The node with the child that an accessor leads to replaced. */
  function With(node: Node, step: Step, child: Node): Node {
    match step
    case Index(i) => if InRange(node, i) then Arr(node.items[i := child]) else node
    case Key(k) => if node.Obj? && k in node.members then Obj(node.members[k := child]) else node
  }

  /** The accessor leads to something that a removal enters. */
  predicate Enters(node: Node, step: Step) {
    match step
    case Index(i) => InRange(node, i)
    case Key(k) => node.Obj? && k in node.members && node.members[k] != Nil
  }

  /** A removal further down does not change what the first accessor means. */
  lemma FirstStays(flat: set<string>, path: string, node: Node, prev: string, child: Node)
    requires path != "" && path[0] != '.' && Tokens(flat, path, node, prev).Some?
    requires Enters(node, First(flat, path, node, prev).step)
    ensures var p := First(flat, path, node, prev);
            Tokens(flat, path, With(node, p.step, child), prev) == Then(p.step, Tokens(flat, p.rest, child, p.key))
  {
    var p := First(flat, path, node, prev);
    var after := With(node, p.step, child);
    if p.step.Key? {
      assert KeysOf(after) == KeysOf(node);
      assert KeyLength(after, path) == KeyLength(node, path);
      if path[0] != '[' && prev in flat { assert [Key(path)] + [] == [Key(path)]; }
    }
  }

  lemma RemoveEnters(node: Node, step: Step, more: seq<Step>, child: Node)
    requires more != [] && Enters(node, step)
    requires child == match step case Index(i) => node.items[i] case Key(k) => node.members[k]
    ensures var o := RemoveAt(child, more);
            RemoveAt(node, [step] + more) == Outcome(With(node, step, o.node), o.ok)
  {
    assert ([step] + more)[1..] == more;
  }

  lemma WithSame(node: Node, step: Step, a: Node, b: Node)
    requires Enters(node, step)
    ensures With(With(node, step, a), step, b) == With(node, step, b)
    ensures With(node, step, a) == With(node, step, b) <==> a == b
  {
    match step
    case Index(i) =>
      assert node.items[i := a][i := b] == node.items[i := b];
      assert node.items[i := a][i] == a && node.items[i := b][i] == b;
    case Key(k) =>
      assert node.members[k := a][k := b] == node.members[k := b];
      assert node.members[k := a][k] == a && node.members[k := b][k] == b;
  }

  /** One accessor that is entered: the second removal does below it what it does alone. */
  lemma AgainBelow(flat: set<string>, path: string, node: Node, prev: string)
    requires path != "" && path[0] != '.' && Resolves(flat, path, node, prev)
    requires var p := First(flat, path, node, prev);
             Enters(node, p.step) && Resolves(flat, p.rest, p.child, p.key)
    ensures var p := First(flat, path, node, prev);
            var after := RemoveAt(p.child, Tokens(flat, p.rest, p.child, p.key).value).node;
            && RemoveAt(node, Tokens(flat, path, node, prev).value).node == With(node, p.step, after)
            && RemoveAt(node, Tokens(flat, path, node, prev).value).ok
               == RemoveAt(p.child, Tokens(flat, p.rest, p.child, p.key).value).ok
            && (Again(flat, path, With(node, p.step, after), prev) <==> Again(flat, p.rest, after, p.key))
  {
    var p := First(flat, path, node, prev);
    var more := Tokens(flat, p.rest, p.child, p.key).value;
    var after := RemoveAt(p.child, more).node;
    RemoveEnters(node, p.step, more, p.child);
    FirstStays(flat, path, node, prev, after);
    if p.step.Key? { RemoveIsContainer(p.child, more); }
    var next := With(node, p.step, after);
    var second := Tokens(flat, p.rest, after, p.key);
    if second == Some([]) {
      NoSteps(flat, p.rest, after, p.child, p.key);
    } else if second.Some? {
      RemoveEnters(next, p.step, second.value, after);
      WithSame(node, p.step, after, RemoveAt(after, second.value).node);
      WithSame(node, p.step, after, after);
    }
  }

  /** Along the whole path: a second removal succeeds and changes nothing exactly when it does no harm at
      the last accessor. */
  lemma {:induction false} RemovalAgainIff(flat: set<string>, path: string, node: Node, prev: string)
    requires Resolves(flat, path, node, prev) && RemoveAt(node, Tokens(flat, path, node, prev).value).ok
    ensures Again(flat, path, RemoveAt(node, Tokens(flat, path, node, prev).value).node, prev)
            <==> Harmless(flat, LastSite(flat, path, node, prev))
    decreases |path|
  {
    var steps := Tokens(flat, path, node, prev).value;
    if path[0] == '.' {
      RemovalAgainIff(flat, path[1..], node, prev);
    } else {
      var p := First(flat, path, node, prev);
      if Tokens(flat, p.rest, p.child, p.key).value == [] {
        LastAgain(flat, path, node, prev);
      } else if Enters(node, p.step) {
        AgainBelow(flat, path, node, prev);
        RemovalAgainIff(flat, p.rest, p.child, p.key);
      } else {
        assert p.child == Nil && RemoveAt(node, steps) == Outcome(node, true);
        NilSite(flat, p.rest, p.key);
      }
    }
  }

  // ---------------------------------------------------------------- the law

  /** Undoing an addition twice is undoing it once exactly when the first undo fails, or the second does no
      harm at the container that the path's last accessor is applied to. */
  lemma RemovalTwiceIff(root: Node, e: Entry)
    requires !e.hasOld
    ensures Revert(root, e).ok ==> Resolves(FLAT_KEY_FIELDS, Stripped(e.path), root, "")
    ensures Revert(Revert(root, e).node, e) == Revert(root, e)
            <==> (Revert(root, e).ok ==>
                    Harmless(FLAT_KEY_FIELDS, LastSite(FLAT_KEY_FIELDS, Stripped(e.path), root, "")))
  {
    var path := Stripped(e.path);
    var location := Location(root, e);
    if !Revert(root, e).ok {
      if location.Some? && location.value != [] { FailedRemoval(root, location.value); }
    } else {
      RemovalAgainIff(FLAT_KEY_FIELDS, path, root, "");
      TwiceIsAgain(FLAT_KEY_FIELDS, path, root, e);
    }
  }

  lemma TwiceIsAgain(flat: set<string>, path: string, root: Node, e: Entry)
    requires !e.hasOld
    ensures var first := Undo(root, e, Tokens(flat, path, root, ""));
            first.ok ==>
              (Undo(first.node, e, Tokens(flat, path, first.node, "")) == first <==> Again(flat, path, first.node, ""))
  {
  }

  // ---------------------------------------------------------------- an input at which it repeats

  lemma PathStays()
    ensures Stripped("a.b") == "a.b"
  {
    assert Find("a.b", '.') == 1 by { assert "a.b"[1..] == ".b"; }
    forall i | 0 <= i < |WORKLOAD_KINDS|
      ensures !EqualFold(WORKLOAD_KINDS[i], "a.b"[..1])
    {
      assert |WORKLOAD_KINDS[i]| > 1;
    }
  }

  lemma WholeKey(flat: set<string>, node: Node)
    requires node.Obj? && "a.b" in node.members && "" !in flat
    ensures Tokens(flat, "a.b", node, "") == Some([Key("a.b")])
  {
    assert "a.b"[..3] == "a.b" && "a.b"[3..] == "";
    assert Fits(KeysOf(node), "a.b", 3);
    assert [Key("a.b")] + [] == [Key("a.b")];
  }

  lemma TwoKeys(flat: set<string>, child: Node)
    requires child.Obj? && "b" in child.members && "" !in flat && "a" !in flat
    ensures Tokens(flat, "a.b", Obj(map["a" := child]), "") == Some([Key("a"), Key("b")])
  {
    var node := Obj(map["a" := child]);
    assert "a.b"[..3] == "a.b" && "a.b"[..2] == "a." && "a.b"[..1] == "a" && "a.b"[1..] == ".b" && ".b"[1..] == "b";
    assert Fits(KeysOf(node), "a.b", 1) && !Fits(KeysOf(node), "a.b", 2) && !Fits(KeysOf(node), "a.b", 3);
    LongestIs(KeysOf(node), "a.b", 3, 1);
    assert "b"[..1] == "b" && "b"[1..] == "" && Fits(KeysOf(child), "b", 1);
    assert Tokens(flat, ".b", child, "a") == Tokens(flat, "b", child, "a");
    assert [Key("b")] + [] == [Key("b")] && [Key("a")] + [Key("b")] == [Key("a"), Key("b")];
  }

  /** The path `a.b` on an object that has the key `a.b` and, below the key `a`, the key `b`: the first undo
      removes the one, the second the other. */
  lemma RemovalCanRepeat(x: Node, y: Node)
    ensures var root := Obj(map["a.b" := x, "a" := Obj(map["b" := y])]);
            var e := Entry("a.b", Nil, false);
            && Revert(root, e) == Outcome(Obj(map["a" := Obj(map["b" := y])]), true)
            && Revert(Revert(root, e).node, e) == Outcome(Obj(map["a" := Obj(map[])]), true)
  {
    var child := Obj(map["b" := y]);
    PathStays();
    WholeKey(FLAT_KEY_FIELDS, Obj(map["a.b" := x, "a" := child]));
    RemoveWhole(x, child);
    TwoKeys(FLAT_KEY_FIELDS, child);
    RemoveNested(y);
  }

  lemma RemoveWhole(x: Node, child: Node)
    ensures RemoveAt(Obj(map["a.b" := x, "a" := child]), [Key("a.b")]) == Outcome(Obj(map["a" := child]), true)
  {
    var members := map["a.b" := x, "a" := child];
    assert members - {"a.b"} == map["a" := child];
  }

  lemma RemoveNested(y: Node)
    ensures RemoveAt(Obj(map["a" := Obj(map["b" := y])]), [Key("a"), Key("b")])
         == Outcome(Obj(map["a" := Obj(map[])]), true)
  {
    var child := map["b" := y];
    assert [Key("a"), Key("b")][1..] == [Key("b")] && child - {"b"} == map[];
    assert map["a" := Obj(child)]["a" := Obj(map[])] == map["a" := Obj(map[])];
  }
}
