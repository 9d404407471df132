/** Live objects as trees, and writing or removing one location of a tree. */
module RevertTree {
  import opened Options

  datatype Node =
    | Nil
    | Text(s: string)
    | Bool(b: bool)
    | Int(n: int)
    | Float(x: real)
    | Obj(members: map<string, Node>)
    | Arr(items: seq<Node>)

  datatype Step = Key(key: string) | Index(index: int)

  predicate InRange(node: Node, i: int) {
    node.Arr? && 0 <= i < |node.items|
  }

  /** A tree and whether the operation succeeded. */
  datatype Outcome = Outcome(node: Node, ok: bool)

  /** The member that navigation enters: a missing or null one is created empty. */
  function Entered(m: map<string, Node>, k: string): Node {
    if k in m && m[k] != Nil then m[k] else Obj(map[])
  }

  /** Writes `v` at `steps`, creating missing objects on the way. A failed write may leave objects
      it created. */
  function SetAt(node: Node, steps: seq<Step>, v: Node): Outcome
    requires steps != []
    decreases |steps|
  {
    match steps[0]
    case Index(i) =>
      if !InRange(node, i) then Outcome(node, false)
      else if |steps| == 1 then Outcome(Arr(node.items[i := v]), true)
      else
        var o := SetAt(node.items[i], steps[1..], v);
        Outcome(Arr(node.items[i := o.node]), o.ok)
    case Key(k) =>
      if !node.Obj? then Outcome(node, false)
      else if |steps| == 1 then Outcome(Obj(node.members[k := v]), true)
      else
        var o := SetAt(Entered(node.members, k), steps[1..], v);
        Outcome(Obj(node.members[k := o.node]), o.ok)
  }

  /** Removes the member at `steps`. Nothing happens when its parent is gone; an array element is
      never removed. */
  function RemoveAt(node: Node, steps: seq<Step>): Outcome
    requires steps != []
    decreases |steps|
  {
    if |steps| == 1 then
      match steps[0]
      case Index(_) => Outcome(node, false)
      case Key(k) => if node.Obj? then Outcome(Obj(node.members - {k}), true) else Outcome(node, false)
    else
      match steps[0]
      case Index(i) =>
        if !InRange(node, i) then Outcome(node, true)
        else
          var o := RemoveAt(node.items[i], steps[1..]);
          Outcome(Arr(node.items[i := o.node]), o.ok)
      case Key(k) =>
        if !node.Obj? || k !in node.members || node.members[k] == Nil then Outcome(node, true)
        else
          var o := RemoveAt(node.members[k], steps[1..]);
          Outcome(Obj(node.members[k := o.node]), o.ok)
  }

  /** What is at a location, if the location exists. */
  function Get(node: Node, steps: seq<Step>): Option<Node> {
    if steps == [] then Some(node)
    else match steps[0]
      case Index(i) => if InRange(node, i) then Get(node.items[i], steps[1..]) else None
      case Key(k) => if node.Obj? && k in node.members then Get(node.members[k], steps[1..]) else None
  }

  /** The two locations part at some step: neither is above the other, nor are they equal. */
  predicate Apart(p: seq<Step>, q: seq<Step>) {
    p != [] && q != [] && (p[0] != q[0] || Apart(p[1..], q[1..]))
  }

  /** After a successful write the location holds the value written. */
  lemma {:induction false} SetThenGet(node: Node, steps: seq<Step>, v: Node)
    requires steps != [] && SetAt(node, steps, v).ok
    ensures Get(SetAt(node, steps, v).node, steps) == Some(v)
    decreases |steps|
  {
    if |steps| == 1 {
      assert steps[1..] == [];
    } else {
      match steps[0]
      case Index(i) => SetThenGet(node.items[i], steps[1..], v);
      case Key(k) => SetThenGet(Entered(node.members, k), steps[1..], v);
    }
  }

  /** A write, successful or not, leaves every location off its path as it was. */
  lemma {:induction false} SetElsewhere(node: Node, steps: seq<Step>, v: Node, q: seq<Step>)
    requires Apart(steps, q)
    ensures Get(SetAt(node, steps, v).node, q) == Get(node, q)
    decreases |steps|
  {
    if steps[0] == q[0] {
      match steps[0]
      case Index(i) =>
        if InRange(node, i) { SetElsewhere(node.items[i], steps[1..], v, q[1..]); }
      case Key(k) =>
        if node.Obj? {
          SetElsewhere(Entered(node.members, k), steps[1..], v, q[1..]);
          assert q[1..] != [];
        }
    }
  }

  /** Writing twice is writing once, with the later value. */
  lemma {:induction false} SetTwice(node: Node, steps: seq<Step>, v: Node, w: Node)
    requires steps != [] && SetAt(node, steps, v).ok
    ensures SetAt(SetAt(node, steps, v).node, steps, w) == SetAt(node, steps, w)
    ensures SetAt(node, steps, w).ok
    decreases |steps|
  {
    if |steps| > 1 {
      match steps[0]
      case Index(i) =>
        SetTwice(node.items[i], steps[1..], v, w);
        var a, b := SetAt(node.items[i], steps[1..], v).node, SetAt(node.items[i], steps[1..], w).node;
        assert node.items[i := a][i := b] == node.items[i := b];
      case Key(k) =>
        var e := Entered(node.members, k);
        SetTwice(e, steps[1..], v, w);
        SetIsContainer(e, steps[1..], v);
        var a, b := SetAt(e, steps[1..], v).node, SetAt(e, steps[1..], w).node;
        assert node.members[k := a][k := b] == node.members[k := b];
    } else {
      match steps[0]
      case Index(i) => assert node.items[i := v][i := w] == node.items[i := w];
      case Key(k) => assert node.members[k := v][k := w] == node.members[k := w];
    }
  }

  lemma SetIsContainer(node: Node, steps: seq<Step>, v: Node)
    requires steps != [] && node != Nil
    ensures SetAt(node, steps, v).node != Nil
  {
  }

  /** The location can be written: every container on the way has the kind that the accessor needs; where a
      member is missing or null, objects are created, and an object has no elements. */
  predicate Writable(node: Node, steps: seq<Step>)
    requires steps != []
    decreases |steps|
  {
    match steps[0]
    case Index(i) => InRange(node, i) && (|steps| == 1 || Writable(node.items[i], steps[1..]))
    case Key(k) =>
      && node.Obj?
      && (|steps| == 1 ||
          if k in node.members && node.members[k] != Nil then Writable(node.members[k], steps[1..])
          else forall j :: 0 < j < |steps| ==> steps[j].Key?)
  }

  /** A write succeeds exactly when its location can be written. */
  lemma {:induction false} SetSucceedsIff(node: Node, steps: seq<Step>, v: Node)
    requires steps != []
    ensures SetAt(node, steps, v).ok <==> Writable(node, steps)
    decreases |steps|
  {
    if |steps| > 1 {
      match steps[0]
      case Index(i) => if InRange(node, i) { SetSucceedsIff(node.items[i], steps[1..], v); }
      case Key(k) =>
        if node.Obj? && k in node.members && node.members[k] != Nil {
          SetSucceedsIff(node.members[k], steps[1..], v);
        } else if node.Obj? {
          SetSucceedsIff(Obj(map[]), steps[1..], v);
          WritableFromEmpty(steps[1..]);
          assert forall j :: 0 < j < |steps| ==> steps[1..][j - 1] == steps[j];
        }
    }
  }

  lemma {:induction false} WritableFromEmpty(steps: seq<Step>)
    requires steps != []
    ensures Writable(Obj(map[]), steps) <==> forall j :: 0 <= j < |steps| ==> steps[j].Key?
  {
  }

  /** Removing a member leaves every location off its path as it was. */
  lemma {:induction false} RemoveElsewhere(node: Node, steps: seq<Step>, q: seq<Step>)
    requires Apart(steps, q)
    ensures Get(RemoveAt(node, steps).node, q) == Get(node, q)
    decreases |steps|
  {
    if |steps| > 1 && steps[0] == q[0] {
      match steps[0]
      case Index(i) => if InRange(node, i) { RemoveElsewhere(node.items[i], steps[1..], q[1..]); }
      case Key(k) =>
        if node.Obj? && k in node.members && node.members[k] != Nil {
          RemoveElsewhere(node.members[k], steps[1..], q[1..]);
        }
    }
  }

  /** A successful removal leaves nothing at the location. */
  lemma {:induction false} RemoveThenGet(node: Node, steps: seq<Step>)
    requires steps != [] && RemoveAt(node, steps).ok
    ensures Get(RemoveAt(node, steps).node, steps) == None
    decreases |steps|
  {
    if |steps| > 1 {
      match steps[0]
      case Index(i) => if InRange(node, i) { RemoveThenGet(node.items[i], steps[1..]); }
      case Key(k) =>
        if node.Obj? && k in node.members {
          if node.members[k] != Nil { RemoveThenGet(node.members[k], steps[1..]); }
        }
    }
  }

  /** A failed removal leaves the tree as it was. */
  lemma {:induction false} FailedRemoval(node: Node, steps: seq<Step>)
    requires steps != [] && !RemoveAt(node, steps).ok
    ensures RemoveAt(node, steps).node == node
    decreases |steps|
  {
    if |steps| > 1 {
      match steps[0]
      case Index(i) =>
        FailedRemoval(node.items[i], steps[1..]);
        assert node.items[i := node.items[i]] == node.items;
      case Key(k) =>
        FailedRemoval(node.members[k], steps[1..]);
        assert node.members[k := node.members[k]] == node.members;
    }
  }

  lemma RemoveIsContainer(node: Node, steps: seq<Step>)
    requires steps != [] && node != Nil
    ensures RemoveAt(node, steps).node != Nil
  {
  }

  /** The way to the location breaks off: some member on it is missing or null, some element is missing,
      or the last object on it has no such member. */
  predicate Gone(node: Node, steps: seq<Step>)
    requires steps != []
    decreases |steps|
  {
    if |steps| == 1 then steps[0].Key? && node.Obj? && steps[0].key !in node.members
    else
      match steps[0]
      case Index(i) => !InRange(node, i) || Gone(node.items[i], steps[1..])
      case Key(k) =>
        !node.Obj? || k !in node.members || node.members[k] == Nil || Gone(node.members[k], steps[1..])
  }

  /** A removal succeeds and changes nothing exactly when the way to its location breaks off. */
  lemma {:induction false} NoRemovalIff(node: Node, steps: seq<Step>)
    requires steps != []
    ensures RemoveAt(node, steps) == Outcome(node, true) <==> Gone(node, steps)
    decreases |steps|
  {
    if |steps| == 1 {
      if steps[0].Key? && node.Obj? {
        assert steps[0].key !in node.members ==> node.members - {steps[0].key} == node.members;
      }
    } else {
      match steps[0]
      case Index(i) =>
        if InRange(node, i) {
          NoRemovalIff(node.items[i], steps[1..]);
          ItemUpdate(node.items, i, RemoveAt(node.items[i], steps[1..]).node);
        }
      case Key(k) =>
        if node.Obj? && k in node.members && node.members[k] != Nil {
          NoRemovalIff(node.members[k], steps[1..]);
          MemberUpdate(node.members, k, RemoveAt(node.members[k], steps[1..]).node);
        }
    }
  }

  lemma ItemUpdate(items: seq<Node>, i: nat, v: Node)
    requires i < |items|
    ensures items[i := v] == items <==> v == items[i]
  {
    assert items[i := v][i] == v;
  }

  lemma MemberUpdate(m: map<string, Node>, k: string, v: Node)
    requires k in m
    ensures m[k := v] == m <==> v == m[k]
  {
    assert m[k := v][k] == v;
  }

  /** The way to the parent of the location is whole, and the parent is not an object with members, or the
      last accessor is an index. */
  predicate Refused(node: Node, steps: seq<Step>)
    requires steps != []
  {
    var n := |steps| - 1;
    && (forall j :: 0 < j <= n ==> !Missing(node, steps, j))
    && Get(node, steps[..n]).Some?
    && (steps[n].Index? || !Get(node, steps[..n]).value.Obj?)
  }

  /** A removal fails exactly when its parent is there and cannot lose a member of that name. */
  lemma {:induction false} RemoveFailsIff(node: Node, steps: seq<Step>)
    requires steps != []
    ensures !RemoveAt(node, steps).ok <==> Refused(node, steps)
    decreases |steps|
  {
    var n := |steps| - 1;
    if n == 0 {
      assert steps[..0] == [];
    } else {
      match steps[0]
      case Index(i) =>
        if InRange(node, i) {
          RemoveFailsIff(node.items[i], steps[1..]);
          RefusedBelow(node, steps, node.items[i]);
        } else {
          NothingFirst(node, steps);
        }
      case Key(k) =>
        if node.Obj? && k in node.members && node.members[k] != Nil {
          RemoveFailsIff(node.members[k], steps[1..]);
          RefusedBelow(node, steps, node.members[k]);
        } else {
          NothingFirst(node, steps);
        }
    }
  }

  lemma NothingFirst(node: Node, steps: seq<Step>)
    requires |steps| > 1
    requires match steps[0]
             case Index(i) => !InRange(node, i)
             case Key(k) => !node.Obj? || k !in node.members || node.members[k] == Nil
    ensures Missing(node, steps, 1)
  {
    assert steps[..1] == [steps[0]];
    GetOne(node, steps[0]);
  }

  lemma RefusedBelow(node: Node, steps: seq<Step>, child: Node)
    requires |steps| > 1 && Get(node, [steps[0]]) == Some(child) && (steps[0].Key? ==> child != Nil)
    ensures Refused(node, steps) <==> Refused(child, steps[1..])
  {
    var n, rest := |steps| - 1, steps[1..];
    forall j | 0 < j <= n
      ensures Get(node, steps[..j]) == Get(child, rest[..j - 1])
    {
      assert steps[..j][0] == steps[0] && steps[..j][1..] == rest[..j - 1];
      GetOne(node, steps[0]);
    }
    assert rest[..0] == [] && Get(child, []) == Some(child);
    forall j | 0 < j < n
      ensures Missing(node, steps, j + 1) == Missing(child, rest, j)
    {
      assert rest[j - 1] == steps[j];
    }
    assert !Missing(node, steps, 1);
    assert Refused(child, rest) ==> forall j :: 0 < j <= n ==> !Missing(node, steps, j) by {
      if Refused(child, rest) {
        forall j | 0 < j <= n ensures !Missing(node, steps, j) {
          if j > 1 { assert !Missing(child, rest, j - 1); }
        }
      }
    }
    assert Refused(node, steps) ==> forall j :: 0 < j <= n - 1 ==> !Missing(child, rest, j) by {
      if Refused(node, steps) {
        forall j | 0 < j <= n - 1 ensures !Missing(child, rest, j) {
          assert !Missing(node, steps, j + 1);
        }
      }
    }
  }

  /** Nothing, or a null member, is at the `j`-th place on the way to the location. */
  predicate Missing(node: Node, steps: seq<Step>, j: nat) {
    && 0 < j < |steps|
    && (Get(node, steps[..j]) == None || (steps[j - 1].Key? && Get(node, steps[..j]) == Some(Nil)))
  }

  lemma GetOne(node: Node, step: Step)
    ensures step.Index? ==>
              Get(node, [step]) == if InRange(node, step.index) then Some(node.items[step.index]) else None
    ensures step.Key? ==>
              Get(node, [step]) == if node.Obj? && step.key in node.members then Some(node.members[step.key]) else None
  {
    assert [step][1..] == [];
  }

  /** Removing a field below something that is missing or null changes nothing and is not an error. */
  lemma {:induction false} RemoveBelowNothing(node: Node, steps: seq<Step>, j: nat)
    requires Missing(node, steps, j)
    ensures Gone(node, steps) && RemoveAt(node, steps) == Outcome(node, true)
    decreases j
  {
    var way := steps[..j];
    assert way[0] == steps[0] && way[1..] == steps[1..][..j - 1];
    NoRemovalIff(node, steps);
    if j == 1 {
      assert way == [steps[0]];
      GetOne(node, steps[0]);
    } else {
      assert steps[1..][j - 2] == steps[j - 1];
      match steps[0]
      case Index(i) => if InRange(node, i) { RemoveBelowNothing(node.items[i], steps[1..], j - 1); }
      case Key(k) =>
        if node.Obj? && k in node.members && node.members[k] != Nil {
          RemoveBelowNothing(node.members[k], steps[1..], j - 1);
        }
    }
  }

  // ---------------------------------------------------------------- values

  predicate FitsInt64(x: real) {
    -9223372036854775808.0 <= x < 9223372036854775808.0
  }

  /** Whole numbers that decoded as floats become integers, at every depth. */
  function Normalize(v: Node): Node {
    match v
    case Float(x) => if FitsInt64(x) && x == x.Floor as real then Int(x.Floor) else v
    case Obj(m) => Obj(map k | k in m :: Normalize(m[k]))
    case Arr(a) => Arr(seq(|a|, i requires 0 <= i < |a| => Normalize(a[i])))
    case _ => v
  }

  /** No whole number is left as a float. */
  predicate Normalized(v: Node) {
    match v
    case Float(x) => !(FitsInt64(x) && x == x.Floor as real)
    case Obj(m) => forall k :: k in m ==> Normalized(m[k])
    case Arr(a) => forall i :: 0 <= i < |a| ==> Normalized(a[i])
    case _ => true
  }

  /** The two trees stand for the same JSON value: numbers agree as numbers, objects member by member, arrays
      item by item, and everything else is equal. */
  predicate SameValue(a: Node, b: Node) {
    match a
    case Int(n) => b == a || (b.Float? && n as real == b.x)
    case Float(x) => b == a || (b.Int? && x == b.n as real)
    case Obj(m) => b.Obj? && m.Keys == b.members.Keys && forall k :: k in m ==> SameValue(m[k], b.members[k])
    case Arr(s) => b.Arr? && |s| == |b.items| && forall i :: 0 <= i < |s| ==> SameValue(s[i], b.items[i])
    case _ => a == b
  }

  /** Normalising keeps the value. */
  lemma {:induction false} NormalizeKeepsValue(v: Node)
    ensures SameValue(v, Normalize(v))
  {
    match v
    case Obj(m) => forall k | k in m ensures SameValue(m[k], Normalize(m[k])) { NormalizeKeepsValue(m[k]); }
    case Arr(a) =>
      forall i | 0 <= i < |a| ensures SameValue(a[i], Normalize(a[i])) { NormalizeKeepsValue(a[i]); }
    case _ =>
  }

  lemma {:induction false} NormalizeNormalizes(v: Node)
    ensures Normalized(Normalize(v))
    ensures Normalized(v) ==> Normalize(v) == v
  {
    match v
    case Obj(m) =>
      forall k | k in m ensures Normalized(Normalize(m[k])) && (Normalized(m[k]) ==> Normalize(m[k]) == m[k]) {
        NormalizeNormalizes(m[k]);
      }
    case Arr(a) =>
      forall i | 0 <= i < |a| ensures Normalized(Normalize(a[i])) && (Normalized(a[i]) ==> Normalize(a[i]) == a[i]) {
        NormalizeNormalizes(a[i]);
      }
    case _ =>
  }
}
