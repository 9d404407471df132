/** Chained kubectl commands: splitting on `&&`, `||` and `;`, validating every segment, and running
    them with shell short-circuit rules. */
module KubectlChain {
  import opened Options

  type Args = seq<string>

  /** One invocation and the operator before it, "" for the first. */
  datatype Segment = Segment(op: string, args: Args)

  predicate IsSeparator(t: string) {
    t == "&&" || t == "||" || t == ";"
  }

  predicate IsRejected(t: string) {
    t in {"|", "|&", ">", ">>", "<", "<<", "<<<", "&", "&>", "&>>"}
  }

  // ---------------------------------------------------------------- splitting

  function Strip(cur: Args): Args {
    if cur != [] && cur[0] == "kubectl" then cur[1..] else cur
  }

  /** The segments of the remaining tokens, given the operator and the tokens of the segment being
      gathered; None when a segment is empty, except after a trailing `;`. */
  function Split(tokens: seq<string>, op: string, cur: Args): Option<seq<Segment>>
    decreases |tokens|
  {
    var args := Strip(cur);
    if tokens == [] then
      if args != [] then Some([Segment(op, args)]) else if op == ";" then Some([]) else None
    else if IsSeparator(tokens[0]) then
      if args == [] then None
      else match Split(tokens[1..], tokens[0], [])
        case None => None
        case Some(rest) => Some([Segment(op, args)] + rest)
    else Split(tokens[1..], op, cur + [tokens[0]])
  }

  function After(done: seq<Segment>, rest: Option<seq<Segment>>): Option<seq<Segment>> {
    match rest case None => None case Some(ss) => Some(done + ss)
  }

  method SplitSegments(tokens: seq<string>) returns (segments: Option<seq<Segment>>)
    ensures segments == Split(tokens, "", [])
  {
    var done: seq<Segment>, op, cur: Args := [], "", [];
    AfterNothing(Split(tokens, "", []));
    assert tokens[0..] == tokens;
    for i := 0 to |tokens|
      invariant Split(tokens, "", []) == After(done, Split(tokens[i..], op, cur))
    {
      assert tokens[i..][1..] == tokens[i + 1..];
      if IsSeparator(tokens[i]) {
        var args := Strip(cur);
        if args == [] {
          return None;
        }
        AfterCons(done, Segment(op, args), Split(tokens[i + 1..], tokens[i], []));
        done, op, cur := done + [Segment(op, args)], tokens[i], [];
      } else {
        cur := cur + [tokens[i]];
      }
    }
    var args := Strip(cur);
    if args != [] {
      return Some(done + [Segment(op, args)]);
    }
    assert done + [] == done;
    return if op == ";" then Some(done) else None;
  }

  lemma AfterNothing(rest: Option<seq<Segment>>)
    ensures After([], rest) == rest
  {
    if rest.Some? { assert [] + rest.value == rest.value; }
  }

  lemma AfterCons(done: seq<Segment>, s: Segment, rest: Option<seq<Segment>>)
    ensures After(done + [s], rest) == After(done, match rest case None => None case Some(ss) => Some([s] + ss))
  {
    if rest.Some? { assert done + ([s] + rest.value) == done + [s] + rest.value; }
  }

  /** The tokens of the segments; `stripped[i]` says that segment `i` was written with `kubectl`. */
  function Unsplit(segments: seq<Segment>, stripped: seq<bool>): seq<string>
    requires |segments| == |stripped|
  {
    if segments == [] then []
    else
      (if segments[0].op == "" then [] else [segments[0].op])
      + (if stripped[0] then ["kubectl"] else []) + segments[0].args
      + Unsplit(segments[1..], stripped[1..])
  }

  /** Every command is there, none is empty or holds an operator, and operators separate them. */
  predicate WellSplit(segments: seq<Segment>, op: string) {
    forall i :: 0 <= i < |segments| ==>
      && segments[i].args != []
      && (forall t :: t in segments[i].args ==> t != "&&" && t != "||" && t != ";")
      && (if i == 0 then segments[i].op == op
          else segments[i].op == "&&" || segments[i].op == "||" || segments[i].op == ";")
  }

  /** A segment that begins with `kubectl` was written with one more. */
  predicate Marked(segments: seq<Segment>, stripped: seq<bool>) {
    && |stripped| == |segments|
    && forall i :: 0 <= i < |segments| && segments[i].args != [] && segments[i].args[0] == "kubectl" ==> stripped[i]
  }

  predicate IsTail(tail: seq<string>) {
    tail == [] || tail == [";"] || tail == [";", "kubectl"]
  }

  /** The segments, written down with a tail, are the operator, the tokens gathered and the tokens that follow. */
  predicate Rejoins(tokens: seq<string>, op: string, cur: Args, segs: seq<Segment>, stripped: seq<bool>,
                    tail: seq<string>) {
    && WellSplit(segs, op) && Marked(segs, stripped) && (op == "" ==> segs != []) && IsTail(tail)
    && (if op == "" then [] else [op]) + cur + tokens == Unsplit(segs, stripped) + tail
  }

  lemma RejoinNothing(op: string, cur: Args)
    requires Strip(cur) == [] && op == ";"
    ensures Rejoins([], op, cur, [], [], [op] + cur)
  {
    assert cur == [] || cur == ["kubectl"];
  }

  lemma RejoinMore(tokens: seq<string>, op: string, cur: Args, segs: seq<Segment>, stripped: seq<bool>,
                   tail: seq<string>)
    requires tokens != [] && Rejoins(tokens[1..], op, cur + [tokens[0]], segs, stripped, tail)
    ensures Rejoins(tokens, op, cur, segs, stripped, tail)
  {
    var lead := if op == "" then [] else [op];
    assert lead + (cur + [tokens[0]]) + tokens[1..] == lead + cur + tokens;
  }

  lemma RejoinLast(op: string, cur: Args)
    requires Strip(cur) != [] && forall t :: t in cur ==> !IsSeparator(t)
    ensures Rejoins([], op, cur, [Segment(op, Strip(cur))], [cur[0] == "kubectl"], [])
  {
    var g, bare := Segment(op, Strip(cur)), cur[0] == "kubectl";
    UnsplitCons(g, bare, cur, [], []);
    assert forall t :: t in g.args ==> t in cur;
    assert [g] + [] == [g] && [bare] + [] == [bare];
  }

  lemma RejoinNext(tokens: seq<string>, op: string, cur: Args, segs: seq<Segment>, rest: seq<bool>, tail: seq<string>)
    requires Strip(cur) != [] && (forall t :: t in cur ==> !IsSeparator(t))
    requires tokens != [] && IsSeparator(tokens[0]) && Rejoins(tokens[1..], tokens[0], [], segs, rest, tail)
    ensures Rejoins(tokens, op, cur, [Segment(op, Strip(cur))] + segs, [cur[0] == "kubectl"] + rest, tail)
  {
    var g, bare := Segment(op, Strip(cur)), cur[0] == "kubectl";
    var lead := if op == "" then [] else [op];
    UnsplitCons(g, bare, cur, segs, rest);
    assert tokens == [tokens[0]] + [] + tokens[1..];
    Regroup(lead + cur, Unsplit(segs, rest), tail);
    WellSplitCons(g, segs, tokens[0], op, bare, rest);
  }

  lemma {:induction false} SplitGathered(tokens: seq<string>, op: string, cur: Args)
    returns (stripped: seq<bool>, tail: seq<string>)
    requires Split(tokens, op, cur).Some? && (forall t :: t in cur ==> !IsSeparator(t)) && (op == "" || IsSeparator(op))
    ensures Rejoins(tokens, op, cur, Split(tokens, op, cur).value, stripped, tail)
    decreases |tokens|
  {
    if tokens == [] && Strip(cur) == [] {
      stripped, tail := [], [op] + cur;
      RejoinNothing(op, cur);
    } else if tokens == [] {
      stripped, tail := [cur[0] == "kubectl"], [];
      RejoinLast(op, cur);
    } else if IsSeparator(tokens[0]) {
      var rest;
      rest, tail := SplitGathered(tokens[1..], tokens[0], []);
      stripped := [cur[0] == "kubectl"] + rest;
      RejoinNext(tokens, op, cur, Split(tokens[1..], tokens[0], []).value, rest, tail);
    } else {
      stripped, tail := SplitGathered(tokens[1..], op, cur + [tokens[0]]);
      RejoinMore(tokens, op, cur, Split(tokens, op, cur).value, stripped, tail);
    }
  }

  /** A way to write the segments down. */
  ghost predicate Written(segs: seq<Segment>, stripped: seq<bool>, tail: seq<string>, tokens: seq<string>) {
    && segs != [] && WellSplit(segs, "") && Marked(segs, stripped) && IsTail(tail)
    && tokens == Unsplit(segs, stripped) + tail
  }

  /** Re-joining the segments gives the tokens back, up to stripped `kubectl` words and a trailing
      `;` (with or without a bare `kubectl` after it). */
  lemma SplitRejoins(tokens: seq<string>) returns (stripped: seq<bool>, tail: seq<string>)
    requires Split(tokens, "", []).Some?
    ensures Written(Split(tokens, "", []).value, stripped, tail, tokens)
  {
    stripped, tail := SplitGathered(tokens, "", []);
    assert [] + [] + tokens == tokens;
  }

  lemma Regroup(a: seq<string>, b: seq<string>, c: seq<string>)
    ensures a + (b + c) == a + b + c
  {
  }

  lemma UnsplitCons(g: Segment, bare: bool, cur: Args, segs: seq<Segment>, rest: seq<bool>)
    requires |segs| == |rest| && g.args == Strip(cur) && bare == (cur != [] && cur[0] == "kubectl")
    ensures Unsplit([g] + segs, [bare] + rest) == (if g.op == "" then [] else [g.op]) + cur + Unsplit(segs, rest)
  {
    UnsplitStep(g, bare, segs, rest);
    var word := if bare then ["kubectl"] else [];
    assert cur == word + g.args;
    Assoc(if g.op == "" then [] else [g.op], word, g.args, Unsplit(segs, rest));
  }

  lemma UnsplitStep(g: Segment, bare: bool, segs: seq<Segment>, rest: seq<bool>)
    requires |segs| == |rest|
    ensures Unsplit([g] + segs, [bare] + rest)
         == (if g.op == "" then [] else [g.op]) + (if bare then ["kubectl"] else []) + g.args + Unsplit(segs, rest)
  {
    assert ([g] + segs)[1..] == segs && ([bare] + rest)[1..] == rest;
  }

  lemma Assoc(a: seq<string>, b: seq<string>, c: seq<string>, d: seq<string>)
    ensures a + b + c + d == a + (b + c) + d
  {
  }

  lemma WellSplitCons(g: Segment, segs: seq<Segment>, next: string, op: string, bare: bool, rest: seq<bool>)
    requires g.args != [] && (forall t :: t in g.args ==> !IsSeparator(t)) && g.op == op
    requires WellSplit(segs, next) && IsSeparator(next) && Marked(segs, rest) && (g.args[0] == "kubectl" ==> bare)
    ensures WellSplit([g] + segs, op) && Marked([g] + segs, [bare] + rest)
  {
  }

  /** Tokens without an operator are gathered. */
  lemma {:induction false} Gather(toks: seq<string>, more: seq<string>, op: string, cur: Args)
    requires forall t :: t in toks ==> !IsSeparator(t)
    ensures Split(toks + more, op, cur) == Split(more, op, cur + toks)
    decreases |toks|
  {
    if toks == [] {
      assert toks + more == more && cur + toks == cur;
    } else {
      assert (toks + more)[1..] == toks[1..] + more && toks[0] in toks;
      Gather(toks[1..], more, op, cur + [toks[0]]);
      assert cur + [toks[0]] + toks[1..] == cur + toks;
    }
  }

  /** One segment as it is written behind its operator. */
  function Body(g: Segment, bare: bool): seq<string> {
    (if bare then ["kubectl"] else []) + g.args
  }

  lemma SplitLast(tail: seq<string>, g: Segment, bare: bool)
    requires IsTail(tail) && g.args != [] && (g.args[0] == "kubectl" ==> bare)
    ensures Split(tail, g.op, Body(g, bare)) == Some([g])
  {
    assert Strip(Body(g, bare)) == g.args;
    if tail != [] {
      assert Split([], ";", []) == Some([]) && Split([], ";", ["kubectl"]) == Some([]);
      assert [] + ["kubectl"] == ["kubectl"];
      assert tail[1..] == [] || (tail[1..] == ["kubectl"] && tail[1..][1..] == []);
      assert Split(tail[1..], ";", []) == Some([]);
      assert [g] + [] == [g];
    }
  }

  lemma SplitFirst(next: string, more: seq<string>, g: Segment, bare: bool, segs: seq<Segment>)
    requires IsSeparator(next) && g.args != [] && (g.args[0] == "kubectl" ==> bare)
    requires Split(more, next, []) == Some(segs)
    ensures Split([next] + more, g.op, Body(g, bare)) == Some([g] + segs)
  {
    assert Strip(Body(g, bare)) == g.args && ([next] + more)[1..] == more;
  }

  lemma BodyGathers(g: Segment, bare: bool, more: seq<string>)
    requires forall t :: t in g.args ==> !IsSeparator(t)
    ensures Split(Body(g, bare) + more, g.op, []) == Split(more, g.op, Body(g, bare))
  {
    Gather(Body(g, bare), more, g.op, []);
    assert [] + Body(g, bare) == Body(g, bare);
  }

  /** Any commands, written one behind the other with their operators, are split into those commands again. */
  lemma {:induction false} SplitUnsplit(segs: seq<Segment>, stripped: seq<bool>, tail: seq<string>, op: string)
    requires segs != [] && WellSplit(segs, op) && Marked(segs, stripped) && IsTail(tail)
    ensures Split(Body(segs[0], stripped[0]) + (Unsplit(segs[1..], stripped[1..]) + tail), op, []) == Some(segs)
    decreases |segs|
  {
    var g, bare, rest, marks := segs[0], stripped[0], segs[1..], stripped[1..];
    BodyGathers(g, bare, Unsplit(rest, marks) + tail);
    assert segs == [g] + rest;
    if rest == [] {
      assert segs == [g] && Unsplit(rest, marks) + tail == tail;
      SplitLast(tail, g, bare);
    } else {
      SplitUnsplit(rest, marks, tail, rest[0].op);
      var more := Body(rest[0], marks[0]) + (Unsplit(rest[1..], marks[1..]) + tail);
      UnsplitBody(rest, marks, tail);
      SplitFirst(rest[0].op, more, g, bare, rest);
    }
  }

  lemma UnsplitBody(segs: seq<Segment>, stripped: seq<bool>, tail: seq<string>)
    requires segs != [] && |stripped| == |segs|
    ensures Unsplit(segs, stripped) + tail
         == (if segs[0].op == "" then [] else [segs[0].op])
            + (Body(segs[0], stripped[0]) + (Unsplit(segs[1..], stripped[1..]) + tail))
  {
    var lead := if segs[0].op == "" then [] else [segs[0].op];
    var word := if stripped[0] then ["kubectl"] else [];
    Assoc(lead, word, segs[0].args, Unsplit(segs[1..], stripped[1..]));
    Regroup(lead + Body(segs[0], stripped[0]), Unsplit(segs[1..], stripped[1..]), tail);
    Regroup(lead, Body(segs[0], stripped[0]), Unsplit(segs[1..], stripped[1..]) + tail);
  }

  lemma WrittenSplits(segs: seq<Segment>, stripped: seq<bool>, tail: seq<string>, tokens: seq<string>)
    requires Written(segs, stripped, tail, tokens)
    ensures Split(tokens, "", []) == Some(segs)
  {
    SplitUnsplit(segs, stripped, tail, "");
    UnsplitBody(segs, stripped, tail);
    assert segs[0].op == "";
    assert tokens == Body(segs[0], stripped[0]) + (Unsplit(segs[1..], stripped[1..]) + tail);
  }

  /** A token list has the given segments exactly when it is a way to write them down. */
  lemma SplitIff(tokens: seq<string>, segs: seq<Segment>)
    ensures Split(tokens, "", []) == Some(segs) <==> exists stripped, tail :: Written(segs, stripped, tail, tokens)
  {
    if Split(tokens, "", []) == Some(segs) {
      var stripped, tail := SplitRejoins(tokens);
    }
    if exists stripped, tail :: Written(segs, stripped, tail, tokens) {
      var stripped, tail :| Written(segs, stripped, tail, tokens);
      WrittenSplits(segs, stripped, tail, tokens);
    }
  }

  // ---------------------------------------------------------------- validation

  /** `flags` maps each global flag to whether it takes the next token; `scoped` lists the read-only
      subcommands of verbs that are only partly read-only. */
  datatype Policy = Policy(
    flags: map<string, bool>, verbs: set<string>, scoped: map<string, set<string>>, allowWrite: bool)

  predicate IsFlag(t: string) {
    t != "" && t[0] == '-'
  }

  /** The tokens from `i` up to `k` are leading flags with their values. */
  predicate Flags(p: Policy, args: Args, i: nat, k: nat)
    decreases |args| - i
  {
    i == k ||
    (i < |args| && IsFlag(args[i]) &&
     (if '=' in args[i] then Flags(p, args, i + 1, k)
      else
        && args[i] in p.flags
        && if p.flags[args[i]] then i + 2 <= k && Flags(p, args, i + 2, k) else Flags(p, args, i + 1, k)))
  }

  datatype Found = Verb(at: nat) | NoVerb | UnknownFlag(at: nat)

  /** Finds the verb behind the leading flags, and refuses an unknown flag. */
  method FirstVerb(p: Policy, args: Args) returns (r: Found)
    ensures r.Verb? ==> r.at < |args| && Flags(p, args, 0, r.at) && !IsFlag(args[r.at])
    ensures r.UnknownFlag? ==> r.at < |args| && Flags(p, args, 0, r.at) && IsFlag(args[r.at])
                               && '=' !in args[r.at] && args[r.at] !in p.flags
    ensures r.NoVerb? ==> forall k :: 0 <= k < |args| && Flags(p, args, 0, k) ==> IsFlag(args[k])
  {
    var i := 0;
    while i < |args|
      invariant 0 <= i
      invariant forall k :: i <= k ==> (Flags(p, args, 0, k) <==> Flags(p, args, i, k))
      invariant forall k :: 0 <= k < i && k < |args| && Flags(p, args, 0, k) ==> IsFlag(args[k])
      decreases |args| - i
    {
      var a := args[i];
      if !IsFlag(a) {
        return Verb(i);
      }
      if '=' in a {
        i := i + 1;
        continue;
      }
      if a !in p.flags {
        return UnknownFlag(i);
      }
      if p.flags[a] {
        FlagsSkip(p, args, i);
        i := i + 2;
      } else {
        i := i + 1;
      }
    }
    return NoVerb;
  }

  /** The value of a flag is not a place where the flags can end. */
  lemma FlagsSkip(p: Policy, args: Args, i: nat)
    requires i < |args| && IsFlag(args[i]) && '=' !in args[i] && args[i] in p.flags && p.flags[args[i]]
    ensures !Flags(p, args, i, i + 1)
  {
  }

  /** The command is one the policy lets through: known flags, then an allowed verb, then, for a
      scoped verb, one of its read-only subcommands right behind it. */
  ghost predicate Allowed(p: Policy, args: Args) {
    exists k :: 0 <= k < |args| && Flags(p, args, 0, k) && !IsFlag(args[k]) && args[k] != "" &&
      (p.allowWrite ||
       (args[k] in p.verbs &&
        (args[k] in p.scoped ==> k + 1 < |args| && !IsFlag(args[k + 1]) && args[k + 1] in p.scoped[args[k]])))
  }

  /** A token where the search for the verb ends: the verb, or a flag that is not known. */
  predicate Stops(p: Policy, t: string) {
    !IsFlag(t) || ('=' !in t && t !in p.flags)
  }

  lemma {:induction false} StopUnique(p: Policy, args: Args, i: nat, k: nat, l: nat)
    requires i <= k < |args| && i <= l < |args| && Flags(p, args, i, k) && Flags(p, args, i, l)
    requires Stops(p, args[k]) && Stops(p, args[l])
    ensures k == l
    decreases |args| - i
  {
    if i != k && i != l {
      var n := if '=' in args[i] || !p.flags[args[i]] then i + 1 else i + 2;
      FlagsForward(p, args, n, k);
      FlagsForward(p, args, n, l);
      StopUnique(p, args, n, k, l);
    }
  }

  lemma {:induction false} FlagsForward(p: Policy, args: Args, i: nat, k: nat)
    requires Flags(p, args, i, k) && i <= |args|
    ensures i <= k
    decreases |args| - i
  {
    if i != k && i < |args| {
      if '=' in args[i] || !p.flags[args[i]] { FlagsForward(p, args, i + 1, k); }
    }
  }

  /** Accepts exactly the commands the policy allows. */
  method ValidateSegment(p: Policy, args: Args) returns (ok: bool)
    requires forall v :: v in p.scoped ==> "" !in p.scoped[v]
    ensures ok <==> Allowed(p, args)
  {
    var r := FirstVerb(p, args);
    if !r.NoVerb? {
      forall k | 0 <= k < |args| && Flags(p, args, 0, k) && !IsFlag(args[k])
        ensures k == r.at
      {
        StopUnique(p, args, 0, k, r.at);
      }
    }
    if !r.Verb? || args[r.at] == "" {
      return false;
    }
    var verb := args[r.at];
    if p.allowWrite {
      return true;
    }
    var sub := if r.at + 1 < |args| && !IsFlag(args[r.at + 1]) then args[r.at + 1] else "";
    return verb in p.verbs && (verb in p.scoped ==> sub in p.scoped[verb]);
  }

  // ---------------------------------------------------------------- running

  /** What one command does: it exits with a status, or it breaks the chain. */
  datatype Outcome = Exit(status: int) | Broken(status: int)

  /** Commands run so far, the carried status, and whether the chain was broken. */
  datatype Shell = Shell(ran: seq<Args>, status: int, broken: bool)

  /** How a command ends may depend on every command that ran before it. */
  type World = (seq<Args>, Args) -> Outcome

  function Execute(w: World, s: Shell, args: Args): Shell {
    var o := w(s.ran, args);
    Shell(s.ran + [args], o.status, o.Broken?)
  }

  predicate ShouldRun(op: string, status: int) {
    if op == "&&" then status == 0 else if op == "||" then status != 0 else true
  }

  /** The carried-status loop over the segments. */
  function Chain(w: World, segments: seq<Segment>): Shell {
    if segments == [] then Shell([], 0, false)
    else
      var s := Chain(w, segments[..|segments| - 1]);
      var last := segments[|segments| - 1];
      if s.broken || (|segments| > 1 && !ShouldRun(last.op, s.status)) then s else Execute(w, s, last.args)
  }

  /** The status and the break behind the commands that ran, from the last of them alone. */
  function StatusAfter(w: World, ran: seq<Args>): int {
    if ran == [] then 0 else w(ran[..|ran| - 1], ran[|ran| - 1]).status
  }

  predicate BrokenAfter(w: World, ran: seq<Args>) {
    ran != [] && w(ran[..|ran| - 1], ran[|ran| - 1]).Broken?
  }

  /** The commands of the segments that ran. */
  function Picked(segments: seq<Segment>, runs: seq<bool>): seq<Args>
    requires |runs| == |segments|
  {
    if segments == [] then []
    else
      var n := |segments| - 1;
      Picked(segments[..n], runs[..n]) + if runs[n] then [segments[n].args] else []
  }

  /** A segment is due behind the commands that ran: nothing broke, and behind `&&` the last of them exited with
      zero, behind `||` it did not. */
  predicate Due(w: World, g: Segment, first: bool, ran: seq<Args>) {
    && !BrokenAfter(w, ran)
    && (!first && g.op == "&&" ==> StatusAfter(w, ran) == 0)
    && (!first && g.op == "||" ==> StatusAfter(w, ran) != 0)
  }

  /** Exactly the segments that were due ran. */
  predicate RanDue(w: World, segments: seq<Segment>, runs: seq<bool>) {
    && |runs| == |segments|
    && (segments != [] ==>
          var n := |segments| - 1;
          && RanDue(w, segments[..n], runs[..n])
          && (runs[n] <==> Due(w, segments[n], n == 0, Picked(segments[..n], runs[..n]))))
  }

  /** The commands are those of the segments that were due, and the status and the break are those of the last. */
  ghost predicate Obeys(w: World, segments: seq<Segment>, s: Shell) {
    && s.status == StatusAfter(w, s.ran) && s.broken == BrokenAfter(w, s.ran)
    && exists runs :: RanDue(w, segments, runs) && s.ran == Picked(segments, runs)
  }

  lemma {:induction false} RanDueUnique(w: World, segments: seq<Segment>, a: seq<bool>, b: seq<bool>)
    requires RanDue(w, segments, a) && RanDue(w, segments, b)
    ensures a == b
    decreases |segments|
  {
    if segments != [] {
      var n := |segments| - 1;
      RanDueUnique(w, segments[..n], a[..n], b[..n]);
      assert a == a[..n] + [a[n]] && b == b[..n] + [b[n]];
    }
  }

  /** The segments that the chain runs. */
  lemma {:induction false} ChainObeys(w: World, segments: seq<Segment>) returns (runs: seq<bool>)
    ensures RanDue(w, segments, runs) && Chain(w, segments).ran == Picked(segments, runs)
    ensures var s := Chain(w, segments); s.status == StatusAfter(w, s.ran) && s.broken == BrokenAfter(w, s.ran)
    decreases |segments|
  {
    if segments == [] {
      runs := [];
    } else {
      var n := |segments| - 1;
      var before := ChainObeys(w, segments[..n]);
      var s := Chain(w, segments[..n]);
      runs := before + [Due(w, segments[n], n == 0, s.ran)];
      assert runs[..n] == before;
      ExecuteObeys(w, s, segments[n].args);
    }
  }

  lemma ExecuteObeys(w: World, s: Shell, args: Args)
    ensures var s' := Execute(w, s, args);
            && s'.ran == s.ran + [args]
            && s'.status == StatusAfter(w, s'.ran) && s'.broken == BrokenAfter(w, s'.ran)
  {
    assert (s.ran + [args])[..|s.ran|] == s.ran;
  }

  /** Every chain obeys, and the rules leave only one way to run it. */
  lemma ObeysIff(w: World, segments: seq<Segment>, s: Shell)
    ensures s == Chain(w, segments) <==> Obeys(w, segments, s)
  {
    var runs := ChainObeys(w, segments);
    if Obeys(w, segments, s) {
      var other :| RanDue(w, segments, other) && s.ran == Picked(segments, other);
      RanDueUnique(w, segments, runs, other);
    }
  }

  method RunLoop(w: World, done: nat -> bool, segments: seq<Segment>) returns (s: Shell, reached: nat, failed: bool)
    ensures reached <= |segments| && s == Chain(w, segments[..reached])
    ensures forall i :: 0 <= i < reached ==> !done(i)
    ensures reached < |segments| ==> s.broken || done(reached)
    ensures failed <==> s.broken || reached < |segments|
    ensures (forall i: nat :: !done(i)) ==> s == Chain(w, segments)
  {
    s := Shell([], 0, false);
    for i := 0 to |segments|
      invariant s == Chain(w, segments[..i]) && !s.broken
      invariant forall k :: 0 <= k < i ==> !done(k)
    {
      if done(i) {
        return s, i, true;
      }
      assert segments[..i + 1][..i] == segments[..i];
      var seg := segments[i];
      if i > 0 && !ShouldRun(seg.op, s.status) {
        continue;
      }
      s := Execute(w, s, seg.args);
      if s.broken {
        BrokenStays(w, segments, i + 1);
        return s, i + 1, true;
      }
    }
    assert segments[..|segments|] == segments;
    return s, |segments|, false;
  }

  /** Runs the segments in order. `done(i)` says that the context is cancelled or past its deadline when
      segment `i` is reached; then no further command starts. `reached` segments were gone through, and the
      result is an error when a command broke the chain or a segment was not reached. */
  method RunSegments(w: World, done: nat -> bool, segments: seq<Segment>) returns (s: Shell, reached: nat, failed: bool)
    ensures reached <= |segments| && s == Chain(w, segments[..reached]) && Obeys(w, segments[..reached], s)
    ensures forall i :: 0 <= i < reached ==> !done(i)
    ensures reached < |segments| ==> s.broken || done(reached)
    ensures failed <==> s.broken || reached < |segments|
    ensures (forall i: nat :: !done(i)) ==> s == Chain(w, segments)
  {
    s, reached, failed := RunLoop(w, done, segments);
    ObeysIff(w, segments[..reached], s);
  }

  lemma {:induction false} BrokenStays(w: World, segments: seq<Segment>, n: nat)
    requires n <= |segments| && Chain(w, segments[..n]).broken
    ensures Chain(w, segments) == Chain(w, segments[..n])
    decreases |segments|
  {
    if n == |segments| {
      assert segments[..n] == segments;
    } else {
      var init := segments[..|segments| - 1];
      assert init[..n] == segments[..n];
      BrokenStays(w, init, n);
    }
  }

  // ---------------------------------------------------------------- shell semantics

  /** An AND-OR list, left-associative with equal precedence, as in section 2.9.3 of the POSIX Shell
      Command Language. */
  datatype AndOr = Command(args: Args) | AndIf(left: AndOr, args: Args) | OrIf(left: AndOr, args: Args)

  /** Evaluation: the right command runs when the left list succeeded (`&&`) or failed (`||`); a
      skipped command leaves the status of the list. */
  function Eval(w: World, t: AndOr, s: Shell): Shell {
    match t
    case Command(args) => if s.broken then s else Execute(w, s, args)
    case AndIf(left, args) =>
      var l := Eval(w, left, s);
      if !l.broken && l.status == 0 then Execute(w, l, args) else l
    case OrIf(left, args) =>
      var l := Eval(w, left, s);
      if !l.broken && l.status != 0 then Execute(w, l, args) else l
  }

  /** A list of AND-OR lists separated by `;`. */
  function EvalList(w: World, ts: seq<AndOr>): Shell {
    if ts == [] then Shell([], 0, false)
    else Eval(w, ts[|ts| - 1], EvalList(w, ts[..|ts| - 1]))
  }

  /** The segments read as a list of AND-OR lists. */
  function Read(segments: seq<Segment>): (ts: seq<AndOr>)
    ensures segments != [] ==> ts != []
  {
    if segments == [] then []
    else
      var ts := Read(segments[..|segments| - 1]);
      var last := segments[|segments| - 1];
      if ts != [] && last.op == "&&" then ts[..|ts| - 1] + [AndIf(ts[|ts| - 1], last.args)]
      else if ts != [] && last.op == "||" then ts[..|ts| - 1] + [OrIf(ts[|ts| - 1], last.args)]
      else ts + [Command(last.args)]
  }

  lemma EvalListAppend(w: World, ts: seq<AndOr>, t: AndOr)
    ensures EvalList(w, ts + [t]) == Eval(w, t, EvalList(w, ts))
  {
    assert (ts + [t])[..|ts|] == ts;
  }

  /** A command joined to the last AND-OR list runs or not by the status of the whole list. */
  lemma EvalListJoin(w: World, ts: seq<AndOr>, op: string, args: Args)
    requires ts != [] && (op == "&&" || op == "||")
    ensures var l, k := EvalList(w, ts), |ts| - 1;
            var t := if op == "&&" then AndIf(ts[k], args) else OrIf(ts[k], args);
            EvalList(w, ts[..k] + [t]) == if !l.broken && ShouldRun(op, l.status) then Execute(w, l, args) else l
  {
    var k := |ts| - 1;
    EvalListAppend(w, ts[..k], if op == "&&" then AndIf(ts[k], args) else OrIf(ts[k], args));
  }

  lemma ReadStep(segments: seq<Segment>)
    requires segments != []
    ensures var init, last := segments[..|segments| - 1], segments[|segments| - 1];
            var ts := Read(init);
            && (ts == [] <==> init == [])
            && Read(segments) ==
               (if ts != [] && last.op == "&&" then ts[..|ts| - 1] + [AndIf(ts[|ts| - 1], last.args)]
                else if ts != [] && last.op == "||" then ts[..|ts| - 1] + [OrIf(ts[|ts| - 1], last.args)]
                else ts + [Command(last.args)])
  {
  }

  /** The loop runs the commands, in the order, with the final status, that shell evaluation of the
      list gives; when a command breaks the chain, both stop there. */
  lemma {:induction false} ChainIsShellList(w: World, segments: seq<Segment>)
    ensures Chain(w, segments) == EvalList(w, Read(segments))
    decreases |segments|
  {
    if segments != [] {
      var init, last := segments[..|segments| - 1], segments[|segments| - 1];
      ChainIsShellList(w, init);
      ReadStep(segments);
      var ts := Read(init);
      if ts != [] && (last.op == "&&" || last.op == "||") {
        EvalListJoin(w, ts, last.op, last.args);
      } else {
        EvalListAppend(w, ts, Command(last.args));
      }
    }
  }

  /** The command line is accepted: no pipe or redirect, no empty segment, every segment allowed. */
  ghost predicate Accepted(p: Policy, tokens: seq<string>) {
    && (forall t :: t in tokens ==> t !in {"|", "|&", ">", ">>", "<", "<<", "<<<", "&", "&>", "&>>"})
    && Split(tokens, "", []).Some?
    && (forall g :: g in Split(tokens, "", []).value ==> Allowed(p, g.args))
  }

  /** Parses, validates and runs a tokenized command line. Nothing runs unless every segment is
      allowed, and what runs is what the shell would run: all of the line, or the segments up to where the
      context was done. */
  method Run(p: Policy, w: World, done: nat -> bool, tokens: seq<string>) returns (s: Option<Shell>, reached: nat)
    requires forall v :: v in p.scoped ==> "" !in p.scoped[v]
    ensures s.Some? <==> Accepted(p, tokens)
    ensures s.Some? ==>
              var segments := Split(tokens, "", []).value;
              && reached <= |segments| && s.value == EvalList(w, Read(segments[..reached]))
              && Obeys(w, segments[..reached], s.value)
              && (reached < |segments| ==> s.value.broken || done(reached))
              && ((forall i: nat :: !done(i)) ==> s.value == EvalList(w, Read(segments)))
  {
    reached := 0;
    for i := 0 to |tokens|
      invariant forall k :: 0 <= k < i ==> !IsRejected(tokens[k])
    {
      if IsRejected(tokens[i]) {
        assert tokens[i] in tokens;
        return None, 0;
      }
    }
    var segments := SplitSegments(tokens);
    if segments.None? {
      return None, 0;
    }
    for i := 0 to |segments.value|
      invariant forall k :: 0 <= k < i ==> Allowed(p, segments.value[k].args)
    {
      var ok := ValidateSegment(p, segments.value[i].args);
      if !ok {
        assert segments.value[i] in segments.value;
        return None, 0;
      }
    }
    var end, failed;
    end, reached, failed := RunSegments(w, done, segments.value);
    ChainIsShellList(w, segments.value);
    ChainIsShellList(w, segments.value[..reached]);
    return Some(end), reached;
  }
}
