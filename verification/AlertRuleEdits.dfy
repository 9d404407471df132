/** The edit closures as written: nested loops over the group list, edited in place. */
module AlertRuleEdits {
  import opened AlertRules

  /** The located rules of groups from `gi` on; inside group `gi`, from `ri` on. */
  function MatchesIn(groups: seq<Group>, loc: Locator, gi: nat, ri: nat): seq<(nat, nat)>
    requires gi < |groups| && ri <= |RulesOf(groups[gi])|
    decreases |RulesOf(groups[gi])| - ri
  {
    if !InScope(groups[gi], loc) || ri == |RulesOf(groups[gi])| then []
    else (if Named(RulesOf(groups[gi])[ri], loc.alert) then [(gi, ri)] else []) + MatchesIn(groups, loc, gi, ri + 1)
  }

  function Matches(groups: seq<Group>, loc: Locator, gi: nat): seq<(nat, nat)>
    requires gi <= |groups|
    decreases |groups| - gi
  {
    if gi == |groups| then [] else MatchesIn(groups, loc, gi, 0) + Matches(groups, loc, gi + 1)
  }

  lemma {:induction false} MatchesInExact(groups: seq<Group>, loc: Locator, gi: nat, ri: nat)
    requires gi < |groups| && ri <= |RulesOf(groups[gi])|
    ensures forall p :: p in MatchesIn(groups, loc, gi, ri) <==> p.0 == gi && ri <= p.1 && Located(groups, loc, gi, p.1)
    ensures InScope(groups[gi], loc) ==> |MatchesIn(groups, loc, gi, ri)| == Count(RulesOf(groups[gi])[ri..], loc.alert)
    decreases |RulesOf(groups[gi])| - ri
  {
    if InScope(groups[gi], loc) && ri < |RulesOf(groups[gi])| {
      assert RulesOf(groups[gi])[ri..][1..] == RulesOf(groups[gi])[ri + 1..];
      MatchesInExact(groups, loc, gi, ri + 1);
    }
  }

  /** The list holds exactly the located rules, each once, and its length is their total. */
  lemma {:induction false} MatchesExact(groups: seq<Group>, loc: Locator, gi: nat)
    requires gi <= |groups|
    ensures forall p :: p in Matches(groups, loc, gi) <==> gi <= p.0 && Located(groups, loc, p.0, p.1)
    ensures |Matches(groups, loc, gi)| == Total(groups[gi..], loc)
    decreases |groups| - gi
  {
    if gi < |groups| {
      assert groups[gi..][1..] == groups[gi + 1..];
      MatchesInExact(groups, loc, gi, 0);
      assert RulesOf(groups[gi])[0..] == RulesOf(groups[gi]);
      MatchesExact(groups, loc, gi + 1);
    }
  }

  /** The inner loop: the located rules of one group in scope. */
  method FindInGroup(groups: seq<Group>, loc: Locator, gi: nat) returns (found: seq<(nat, nat)>)
    requires gi < |groups| && InScope(groups[gi], loc)
    ensures found == MatchesIn(groups, loc, gi, 0)
  {
    var rules := RulesOf(groups[gi]);
    found := [];
    ghost var goal := MatchesIn(groups, loc, gi, 0);
    for ri := 0 to |rules|
      invariant found + MatchesIn(groups, loc, gi, ri) == goal
    {
      if Named(rules[ri], loc.alert) {
        Moved(found, (gi, ri), MatchesIn(groups, loc, gi, ri + 1));
        found := found + [(gi, ri)];
      }
    }
  }

  lemma Moved<T>(done: seq<T>, x: T, rest: seq<T>)
    ensures done + ([x] + rest) == (done + [x]) + rest
  {
  }

  lemma Joined<T>(a: seq<T>, b: seq<T>, c: seq<T>)
    ensures a + (b + c) == (a + b) + c
  {
  }

  method FindLocatedRules(groups: seq<Group>, loc: Locator) returns (out: seq<(nat, nat)>)
    ensures out == Matches(groups, loc, 0)
    ensures forall p :: p in out <==> Located(groups, loc, p.0, p.1)
    ensures |out| == Total(groups, loc)
  {
    out := [];
    ghost var goal := Matches(groups, loc, 0);
    for gi := 0 to |groups|
      invariant out + Matches(groups, loc, gi) == goal
    {
      if !InScope(groups[gi], loc) {
        assert MatchesIn(groups, loc, gi, 0) == [];
        continue;
      }
      var found := FindInGroup(groups, loc, gi);
      Joined(out, found, Matches(groups, loc, gi + 1));
      out := out + found;
    }
    MatchesExact(groups, loc, 0);
    assert groups[0..] == groups;
  }

  method ReplaceLegacyRuleInPlace(groups: array<Group>, alert: string, rule: Rule) returns (found: bool)
    modifies groups
    ensures found <==> HasAlert(old(groups[..]), alert)
    ensures groups[..] == if found then ReplaceFirst(old(groups[..]), alert, rule) else old(groups[..])
  {
    ghost var was := groups[..];
    for gi := 0 to groups.Length
      invariant groups[..] == was
      invariant forall k :: 0 <= k < gi ==> !HasRule(was[k], alert)
    {
      var g := groups[gi];
      if g.OddGroup? {
        continue;
      }
      var rules := RulesOf(g);
      for ri := 0 to |rules|
        invariant groups[..] == was
        invariant forall k :: 0 <= k < ri ==> !Named(rules[k], alert)
      {
        if Named(rules[ri], alert) {
          assert HasRule(was[gi], alert) && FirstGroup(was, alert) == gi && FirstRule(rules, alert) == ri;
          groups[gi] := WithRules(g, rules[ri := rule]);
          return true;
        }
      }
    }
    return false;
  }

  /** The edit of CreateOrReplaceAlertRule on an existing resource. */
  method EditUpsert(groups: seq<Group>, alert: string, rule: Rule) returns (out: seq<Group>)
    ensures out == Upsert(groups, alert, rule)
  {
    if |groups| == 0 {
      return [NewGroup(LEGACY_GROUP, rule)];
    }
    var live := new Group[|groups|](i requires 0 <= i < |groups| => groups[i]);
    assert live[..] == groups;
    var replaced := ReplaceLegacyRuleInPlace(live, alert, rule);
    if !replaced {
      live[0] := AppendTo(live[0], LEGACY_GROUP, rule);
    }
    out := live[..];
  }

  /** The inner loop of DeleteAlertRule: one group's list without the named rules. */
  method KeepOthers(rules: seq<Rule>, alert: string) returns (kept: seq<Rule>, dropped: bool)
    ensures kept == Others(rules, alert)
    ensures dropped <==> exists k :: 0 <= k < |rules| && Named(rules[k], alert)
  {
    kept, dropped := [], false;
    ghost var goal := Others(rules, alert);
    assert rules[0..] == rules;
    for ri := 0 to |rules|
      invariant kept + Others(rules[ri..], alert) == goal
      invariant dropped <==> exists k :: 0 <= k < ri && Named(rules[k], alert)
    {
      assert rules[ri..][1..] == rules[ri + 1..];
      if Named(rules[ri], alert) {
        dropped := true;
        continue;
      }
      Moved(kept, rules[ri], Others(rules[ri + 1..], alert));
      kept := kept + [rules[ri]];
    }
  }

  /** The edit of DeleteAlertRule. */
  method EditRemove(groups: seq<Group>, alert: string) returns (out: seq<Group>, changed: bool)
    ensures out == RemoveAlert(groups, alert) && (changed <==> HasAlert(groups, alert))
  {
    var live := new Group[|groups|](i requires 0 <= i < |groups| => groups[i]);
    changed := false;
    ghost var goal := RemoveAlert(groups, alert);
    for gi := 0 to |groups|
      invariant forall k :: gi <= k < |groups| ==> live[k] == groups[k]
      invariant forall k :: 0 <= k < gi ==> live[k] == goal[k]
      invariant changed <==> exists k :: 0 <= k < gi && HasRule(groups[k], alert)
    {
      var g := live[gi];
      if g.OddGroup? {
        assert !HasRule(groups[gi], alert);
        continue;
      }
      var kept, dropped := KeepOthers(RulesOf(g), alert);
      assert dropped <==> HasRule(groups[gi], alert);
      changed := changed || dropped;
      live[gi] := WithRules(g, kept);
    }
    out := live[..];
  }

  predicate Titled(g: Group, name: string) {
    g.Group? && Str(g.fields, "name") == name
  }

  /** The rule goes to the first group of that name. */
  lemma {:induction false} AppendAt(groups: seq<Group>, name: string, rule: Rule, gi: nat)
    requires gi < |groups| && Titled(groups[gi], name) && forall k :: 0 <= k < gi ==> !Titled(groups[k], name)
    ensures AppendToGroup(groups, name, rule) == groups[gi := WithRules(groups[gi], RulesOf(groups[gi]) + [rule])]
  {
    if gi > 0 {
      AppendAt(groups[1..], name, rule, gi - 1);
    }
  }

  /** Without such a group, a new one is added. */
  lemma {:induction false} AppendNew(groups: seq<Group>, name: string, rule: Rule)
    requires forall k :: 0 <= k < |groups| ==> !Titled(groups[k], name)
    ensures AppendToGroup(groups, name, rule) == groups + [NewGroup(name, rule)]
  {
    if groups != [] {
      AppendNew(groups[1..], name, rule);
    }
  }

  function FirstTitled(groups: seq<Group>, name: string): (i: nat)
    ensures i <= |groups|
    ensures forall k :: 0 <= k < i ==> !Titled(groups[k], name)
    ensures i < |groups| ==> Titled(groups[i], name)
  {
    if groups == [] || Titled(groups[0], name) then 0 else 1 + FirstTitled(groups[1..], name)
  }

  /** The groups that were there keep every rule not named like the appended one, in order; a group is
      added only when none has the name. */
  lemma AppendKeepsOthers(groups: seq<Group>, name: string, rule: Rule, alert: string)
    requires Named(rule, alert)
    ensures var out := AppendToGroup(groups, name, rule);
            && |groups| <= |out| <= |groups| + 1 && SameElsewhere(groups, out[..|groups|], alert)
            && (|out| > |groups| ==> out[|groups|] == NewGroup(name, rule))
            && (|out| > |groups| <==> forall k :: 0 <= k < |groups| ==> !Titled(groups[k], name))
  {
    var gi := FirstTitled(groups, name);
    if gi < |groups| {
      AppendAt(groups, name, rule, gi);
      OthersConcat(RulesOf(groups[gi]), [rule], alert);
    } else {
      AppendNew(groups, name, rule);
    }
  }

  method AppendRuleToGroup(groups: seq<Group>, name: string, rule: Rule) returns (out: seq<Group>)
    ensures out == AppendToGroup(groups, name, rule)
  {
    for gi := 0 to |groups|
      invariant forall k :: 0 <= k < gi ==> !Titled(groups[k], name)
    {
      var g := groups[gi];
      if Titled(g, name) {
        AppendAt(groups, name, rule, gi);
        return groups[gi := WithRules(g, RulesOf(g) + [rule])];
      }
    }
    AppendNew(groups, name, rule);
    out := groups + [NewGroup(name, rule)];
  }

  datatype Reply = Put(groups: seq<Group>) | Unchanged | NotFound | Ambiguous

  /** What PatchAlertRuleInCR does to the groups it read. */
  function Patch(groups: seq<Group>, loc: Locator, c: Change): Reply {
    var matches := Matches(groups, loc, 0);
    if matches == [] then
      if loc.group == "" then NotFound else Put(AppendToGroup(groups, loc.group, FullRule(loc.alert, c)))
    else if |matches| == 1 then
      MatchesExact(groups, loc, 0);
      assert matches[0] in matches;
      var (gi, ri) := matches[0];
      Put(SetRule(groups, gi, ri, Patched(RulesOf(groups[gi])[ri], c)))
    else Ambiguous
  }

  /** What DeleteAlertRuleInCR does to the groups it read. */
  function Drop(groups: seq<Group>, loc: Locator): Reply {
    var matches := Matches(groups, loc, 0);
    if matches == [] then NotFound
    else if |matches| == 1 then
      MatchesExact(groups, loc, 0);
      assert matches[0] in matches;
      Put(DropRule(groups, matches[0].0, matches[0].1))
    else Ambiguous
  }

  // ---------------------------------------------------------------- what the answers mean

  /** The answer to a located delete: not found without such a rule, ambiguous with several; else the groups
      without that rule and otherwise unchanged. */
  ghost predicate DropAnswer(groups: seq<Group>, loc: Locator, reply: Reply) {
    && !reply.Unchanged?
    && (reply.NotFound? <==> Total(groups, loc) == 0)
    && (reply.Ambiguous? <==> Total(groups, loc) > 1)
    && (reply.Put? ==>
          && Total(reply.groups, loc) == 0 && SameElsewhere(groups, reply.groups, loc.alert)
          && exists gi, ri :: Located(groups, loc, gi, ri) && SameWithout(groups, reply.groups, gi, ri))
  }

  lemma OneMatch(groups: seq<Group>, loc: Locator) returns (gi: nat, ri: nat)
    requires |Matches(groups, loc, 0)| == 1
    ensures Matches(groups, loc, 0)[0] == (gi, ri) && Located(groups, loc, gi, ri) && Total(groups, loc) == 1
  {
    MatchesExact(groups, loc, 0);
    assert groups[0..] == groups;
    var m := Matches(groups, loc, 0)[0];
    assert m in Matches(groups, loc, 0);
    gi, ri := m.0, m.1;
  }

  lemma DropAnswers(groups: seq<Group>, loc: Locator)
    ensures DropAnswer(groups, loc, Drop(groups, loc))
  {
    MatchesExact(groups, loc, 0);
    assert groups[0..] == groups;
    if |Matches(groups, loc, 0)| == 1 {
      var gi, ri := OneMatch(groups, loc);
      DropFrame(groups, gi, ri, loc);
      assert SameWithout(groups, DropRule(groups, gi, ri), gi, ri);
    }
  }

  /** The rule has the fields of a request for a rule that was absent, and no others. */
  predicate IsRequested(r: Rule, alert: string, c: Change) {
    && r.Rule? && r.fields.Keys <= {"alert", "expr", "for", "annotations", "labels"}
    && Str(r.fields, "alert") == alert && Str(r.fields, "expr") == c.expr
    && ("alert" in r.fields && "expr" in r.fields)
    && ("for" in r.fields <==> c.duration != "") && Str(r.fields, "for") == c.duration
    && ("annotations" in r.fields <==> c.annotations.Some?) && ("labels" in r.fields <==> c.labels.Some?)
    && (c.annotations.Some? ==> r.fields["annotations"] == c.annotations.value)
    && (c.labels.Some? ==> r.fields["labels"] == c.labels.value)
  }

  /** The rule has the requested expression, the requested duration if there is one, and otherwise the fields
      of `was`. */
  predicate IsPatched(was: Rule, r: Rule, c: Change) {
    && was.Rule? && r.Rule? && Str(r.fields, "expr") == c.expr && "expr" in r.fields
    && (c.duration != "" ==> "for" in r.fields && Str(r.fields, "for") == c.duration)
    && (forall k :: k in was.fields && k != "expr" && (k != "for" || c.duration == "") ==>
          k in r.fields && r.fields[k] == was.fields[k])
    && (forall k :: k in r.fields && k != "expr" && (k != "for" || c.duration == "") ==> k in was.fields)
  }

  /** The located rule was there: it is patched in its place and nothing else changes. */
  ghost predicate PatchedAnswer(groups: seq<Group>, loc: Locator, c: Change, out: seq<Group>) {
    exists gi, ri :: Located(groups, loc, gi, ri) && Located(out, loc, gi, ri) && SameButAt(groups, out, gi, ri)
                     && IsPatched(RulesOf(groups[gi])[ri], RulesOf(out[gi])[ri], c)
  }

  /** The located rule was absent: it is at the end of the group of that name, which is there now, and nothing
      else changes. */
  ghost predicate AddedAnswer(groups: seq<Group>, loc: Locator, c: Change, out: seq<Group>) {
    exists gi: nat, r :: IsRequested(r, loc.alert, c) && AddedTo(groups, loc, r, out, gi)
  }

  predicate AddedTo(groups: seq<Group>, loc: Locator, r: Rule, out: seq<Group>, gi: nat) {
    && gi < |out| && InScope(out[gi], loc)
    && |out| == (if gi < |groups| then |groups| else |groups| + 1)
    && RulesOf(out[gi]) == (if gi < |groups| then RulesOf(groups[gi]) else []) + [r]
    && (gi < |groups| ==> groups[gi].Group? && out[gi].fields == groups[gi].fields)
    && forall i :: 0 <= i < |groups| && i != gi ==> out[i] == groups[i]
  }

  /** The answer to a located patch: not found when there is no such rule and no group to add it to, ambiguous
      with several; else the groups with exactly one such rule, patched or added as requested. */
  ghost predicate PatchAnswer(groups: seq<Group>, loc: Locator, c: Change, reply: Reply) {
    && !reply.Unchanged?
    && (reply.NotFound? <==> Total(groups, loc) == 0 && loc.group == "")
    && (reply.Ambiguous? <==> Total(groups, loc) > 1)
    && (reply.Put? ==>
          && Total(reply.groups, loc) == 1
          && (Total(groups, loc) == 1 ==> PatchedAnswer(groups, loc, c, reply.groups))
          && (Total(groups, loc) == 0 ==> AddedAnswer(groups, loc, c, reply.groups)))
  }

  lemma PatchedMeans(groups: seq<Group>, loc: Locator, c: Change)
    requires |Matches(groups, loc, 0)| == 1
    ensures PatchAnswer(groups, loc, c, Patch(groups, loc, c))
  {
    var gi, ri := OneMatch(groups, loc);
    var r := RulesOf(groups[gi])[ri];
    PatchFrame(groups, gi, ri, c, loc);
    PatchedFields(r, c);
    var out := SetRule(groups, gi, ri, Patched(r, c));
    assert Located(out, loc, gi, ri) && SameButAt(groups, out, gi, ri);
    assert IsPatched(RulesOf(groups[gi])[ri], RulesOf(out[gi])[ri], c);
  }

  lemma AddedMeans(groups: seq<Group>, loc: Locator, c: Change)
    requires loc.group != ""
    ensures AddedAnswer(groups, loc, c, AppendToGroup(groups, loc.group, FullRule(loc.alert, c)))
  {
    var rule := FullRule(loc.alert, c);
    var gi := FirstTitled(groups, loc.group);
    assert IsRequested(rule, loc.alert, c);
    if gi < |groups| {
      AppendAt(groups, loc.group, rule, gi);
    } else {
      AppendNew(groups, loc.group, rule);
    }
    assert AddedTo(groups, loc, rule, AppendToGroup(groups, loc.group, rule), gi);
  }

  lemma PatchAnswers(groups: seq<Group>, loc: Locator, c: Change)
    ensures PatchAnswer(groups, loc, c, Patch(groups, loc, c))
  {
    if |Matches(groups, loc, 0)| == 1 {
      PatchedMeans(groups, loc, c);
    } else {
      UnmatchedMeans(groups, loc, c);
    }
  }

  lemma MatchCount(groups: seq<Group>, loc: Locator)
    ensures |Matches(groups, loc, 0)| == Total(groups, loc)
  {
    MatchesExact(groups, loc, 0);
    assert groups[0..] == groups;
  }

  lemma FullRuleNamed(alert: string, c: Change)
    ensures Named(FullRule(alert, c), alert)
  {
  }

  lemma AbsentMeans(groups: seq<Group>, loc: Locator, c: Change)
    requires Total(groups, loc) == 0 && loc.group != ""
    ensures PatchAnswer(groups, loc, c, Put(AppendToGroup(groups, loc.group, FullRule(loc.alert, c))))
  {
    FullRuleNamed(loc.alert, c);
    AppendFrame(groups, loc.group, FullRule(loc.alert, c), loc);
    AddedMeans(groups, loc, c);
  }

  lemma UnmatchedMeans(groups: seq<Group>, loc: Locator, c: Change)
    requires |Matches(groups, loc, 0)| != 1
    ensures PatchAnswer(groups, loc, c, Patch(groups, loc, c))
  {
    MatchCount(groups, loc);
    if Total(groups, loc) == 0 && loc.group != "" { AbsentMeans(groups, loc, c); }
  }

  method EditPatch(groups: seq<Group>, loc: Locator, c: Change) returns (reply: Reply)
    ensures reply == Patch(groups, loc, c) && PatchAnswer(groups, loc, c, reply)
    ensures reply.Put? && UniqueInGroups(groups) ==> UniqueInGroups(reply.groups)
  {
    var matches := FindLocatedRules(groups, loc);
    if |matches| == 0 {
      if loc.group == "" {
        PatchAnswers(groups, loc, c);
        return NotFound;
      }
      var out := AppendRuleToGroup(groups, loc.group, FullRule(loc.alert, c));
      reply := Put(out);
    } else if |matches| == 1 {
      assert matches[0] in matches;
      var gi, ri := matches[0].0, matches[0].1;
      reply := Put(SetRule(groups, gi, ri, Patched(RulesOf(groups[gi])[ri], c)));
    } else {
      PatchAnswers(groups, loc, c);
      return Ambiguous;
    }
    PatchAnswers(groups, loc, c);
    if UniqueInGroups(groups) { PatchKeepsUnique(groups, loc, c); }
  }

  method EditDrop(groups: seq<Group>, loc: Locator) returns (reply: Reply)
    ensures reply == Drop(groups, loc) && DropAnswer(groups, loc, reply)
    ensures reply.Put? && UniqueInGroups(groups) ==> UniqueInGroups(reply.groups)
  {
    var matches := FindLocatedRules(groups, loc);
    DropAnswers(groups, loc);
    if |matches| == 0 {
      return NotFound;
    }
    if |matches| > 1 {
      return Ambiguous;
    }
    assert matches[0] in matches;
    var gi, ri := matches[0].0, matches[0].1;
    var rules := RulesOf(groups[gi]);
    reply := Put(groups[gi := WithRules(groups[gi], rules[..ri] + rules[ri + 1..])]);
    if UniqueInGroups(groups) { DropKeepsUnique(groups, loc); }
  }

  lemma PatchTotal(groups: seq<Group>, loc: Locator, c: Change, other: Locator)
    requires Patch(groups, loc, c).Put? && Total(groups, other) <= 1 && other.group != ""
    ensures Total(Patch(groups, loc, c).groups, other) <= 1
  {
    MatchCount(groups, loc);
    if |Matches(groups, loc, 0)| == 1 {
      var gi, ri := OneMatch(groups, loc);
      PatchFrame(groups, gi, ri, c, other);
    } else {
      AppendFrame(groups, loc.group, FullRule(loc.alert, c), other);
    }
  }

  /** When a located patch is accepted, no group gets a second rule of one name. */
  lemma PatchKeepsUnique(groups: seq<Group>, loc: Locator, c: Change)
    requires UniqueInGroups(groups) && Patch(groups, loc, c).Put?
    ensures UniqueInGroups(Patch(groups, loc, c).groups)
  {
    forall group: string, alert: string | group != ""
      ensures Total(Patch(groups, loc, c).groups, Locator(group, alert)) <= 1
    {
      PatchTotal(groups, loc, c, Locator(group, alert));
    }
  }

  lemma DropKeepsUnique(groups: seq<Group>, loc: Locator)
    requires UniqueInGroups(groups) && Drop(groups, loc).Put?
    ensures UniqueInGroups(Drop(groups, loc).groups)
  {
    var out, matches := Drop(groups, loc).groups, Matches(groups, loc, 0);
    MatchesExact(groups, loc, 0);
    assert matches[0] in matches;
    forall group: string, alert: string | group != ""
      ensures Total(out, Locator(group, alert)) <= 1
    {
      DropFrame(groups, matches[0].0, matches[0].1, Locator(group, alert));
    }
  }
}
