/** The rule groups of a PrometheusRule and what the four rule edits do to them. */
module AlertRules {
  import opened Options

  /** A JSON value; only strings are looked into. */
  datatype Value = Text(s: string) | Opaque(id: int)

  type Fields = map<string, Value>

  /** An entry of a rule list. Entries that are not objects are left alone. */
  datatype Rule = Rule(fields: Fields) | OddRule(raw: Value)

  /** An entry of the group list; `rules` is None when there is no rule list in it. */
  datatype Group = Group(fields: Fields, rules: Option<seq<Rule>>) | OddGroup(raw: Value)

  const LEGACY_GROUP := "kubernetes-apps"

  function Str(fields: Fields, key: string): string {
    if key in fields && fields[key].Text? then fields[key].s else ""
  }

  predicate Named(r: Rule, alert: string) {
    r.Rule? && Str(r.fields, "alert") == alert
  }

  function RulesOf(g: Group): seq<Rule> {
    if g.Group? && g.rules.Some? then g.rules.value else []
  }

  function WithRules(g: Group, rules: seq<Rule>): Group
    requires g.Group?
  {
    g.(rules := Some(rules))
  }

  predicate HasRule(g: Group, alert: string) {
    exists i :: 0 <= i < |RulesOf(g)| && Named(RulesOf(g)[i], alert)
  }

  predicate HasAlert(groups: seq<Group>, alert: string) {
    exists i :: 0 <= i < |groups| && HasRule(groups[i], alert)
  }

  /** The position of the first rule of that name, or the length. */
  function FirstRule(rules: seq<Rule>, alert: string): (i: nat)
    ensures i <= |rules|
    ensures forall k :: 0 <= k < i ==> !Named(rules[k], alert)
    ensures i < |rules| ==> Named(rules[i], alert)
  {
    if rules == [] || Named(rules[0], alert) then 0 else 1 + FirstRule(rules[1..], alert)
  }

  /** The first group with a rule of that name, or the length. */
  function FirstGroup(groups: seq<Group>, alert: string): (i: nat)
    ensures i <= |groups|
    ensures forall k :: 0 <= k < i ==> !HasRule(groups[k], alert)
    ensures i < |groups| ==> HasRule(groups[i], alert)
  {
    if groups == [] || HasRule(groups[0], alert) then 0 else 1 + FirstGroup(groups[1..], alert)
  }

  // ---------------------------------------------------------------- the edits

  /** The first rule of that name, in group order, becomes `rule`. */
  function ReplaceFirst(groups: seq<Group>, alert: string, rule: Rule): seq<Group>
    requires HasAlert(groups, alert)
  {
    var gi := FirstGroup(groups, alert);
    var rules := RulesOf(groups[gi]);
    groups[gi := WithRules(groups[gi], rules[FirstRule(rules, alert) := rule])]
  }

  function NewGroup(name: string, rule: Rule): Group {
    Group(map["name" := Text(name)], Some([rule]))
  }

  function AppendTo(g: Group, name: string, rule: Rule): Group {
    if g.Group? then WithRules(g, RulesOf(g) + [rule]) else NewGroup(name, rule)
  }

  /** Create or replace a rule by alert name. */
  function Upsert(groups: seq<Group>, alert: string, rule: Rule): seq<Group> {
    if groups == [] then [NewGroup(LEGACY_GROUP, rule)]
    else if HasAlert(groups, alert) then ReplaceFirst(groups, alert, rule)
    else groups[0 := AppendTo(groups[0], LEGACY_GROUP, rule)]
  }

  /** The rules not of that name, in order. */
  function Others(rules: seq<Rule>, alert: string): seq<Rule> {
    if rules == [] then []
    else (if Named(rules[0], alert) then [] else [rules[0]]) + Others(rules[1..], alert)
  }

  /** Delete every rule of that name. A group without a rule list gets an empty one. */
  function RemoveAlert(groups: seq<Group>, alert: string): (out: seq<Group>)
    ensures |out| == |groups|
    ensures forall i :: 0 <= i < |groups| ==>
              out[i] == if groups[i].Group? then WithRules(groups[i], Others(RulesOf(groups[i]), alert)) else groups[i]
  {
    seq(|groups|, i requires 0 <= i < |groups| =>
      if groups[i].Group? then WithRules(groups[i], Others(RulesOf(groups[i]), alert)) else groups[i])
  }

  /** `group` is empty when any group will do. */
  datatype Locator = Locator(group: string, alert: string)

  predicate InScope(g: Group, loc: Locator) {
    g.Group? && (loc.group == "" || Str(g.fields, "name") == loc.group)
  }

  predicate Located(groups: seq<Group>, loc: Locator, gi: int, ri: int) {
    && 0 <= gi < |groups| && InScope(groups[gi], loc)
    && 0 <= ri < |RulesOf(groups[gi])| && Named(RulesOf(groups[gi])[ri], loc.alert)
  }

  datatype Change = Change(expr: string, duration: string, annotations: Option<Value>, labels: Option<Value>)

  /** The rule written when the located rule is absent. */
  function FullRule(alert: string, c: Change): Rule {
    var base := map["alert" := Text(alert), "expr" := Text(c.expr)];
    var timed := if c.duration == "" then base else base["for" := Text(c.duration)];
    var noted := if c.annotations.None? then timed else timed["annotations" := c.annotations.value];
    Rule(if c.labels.None? then noted else noted["labels" := c.labels.value])
  }

  /** The rule with its expression, and its duration if one is given, replaced. */
  function Patched(r: Rule, c: Change): Rule
    requires r.Rule?
  {
    var f := r.fields["expr" := Text(c.expr)];
    Rule(if c.duration == "" then f else f["for" := Text(c.duration)])
  }

  function SetRule(groups: seq<Group>, gi: nat, ri: nat, r: Rule): seq<Group>
    requires gi < |groups| && groups[gi].Group? && ri < |RulesOf(groups[gi])|
  {
    groups[gi := WithRules(groups[gi], RulesOf(groups[gi])[ri := r])]
  }

  function DropRule(groups: seq<Group>, gi: nat, ri: nat): seq<Group>
    requires gi < |groups| && groups[gi].Group? && ri < |RulesOf(groups[gi])|
  {
    var rules := RulesOf(groups[gi]);
    groups[gi := WithRules(groups[gi], rules[..ri] + rules[ri + 1..])]
  }

  /** Append to the first group of that name, creating it at the end when there is none. */
  function AppendToGroup(groups: seq<Group>, name: string, rule: Rule): seq<Group> {
    if groups == [] then [NewGroup(name, rule)]
    else if groups[0].Group? && Str(groups[0].fields, "name") == name
    then [WithRules(groups[0], RulesOf(groups[0]) + [rule])] + groups[1..]
    else [groups[0]] + AppendToGroup(groups[1..], name, rule)
  }

  // ---------------------------------------------------------------- what the edits keep

  function Count(rules: seq<Rule>, alert: string): nat {
    if rules == [] then 0 else (if Named(rules[0], alert) then 1 else 0) + Count(rules[1..], alert)
  }

  /** How many rules of that name there are in groups of that name; "" stands for any group. */
  function Total(groups: seq<Group>, loc: Locator): nat {
    if groups == [] then 0
    else (if InScope(groups[0], loc) then Count(RulesOf(groups[0]), loc.alert) else 0) + Total(groups[1..], loc)
  }

  /** Position by position, the groups differ at most in their rules named `alert`: other rules,
      their order and the other fields of a group are the same. */
  predicate SameElsewhere(a: seq<Group>, b: seq<Group>, alert: string) {
    && |a| == |b|
    && forall i :: 0 <= i < |a| ==>
         && Others(RulesOf(a[i]), alert) == Others(RulesOf(b[i]), alert)
         && (a[i].Group? ==> b[i].Group? && a[i].fields == b[i].fields)
         && (b[i].OddGroup? ==> a[i] == b[i])
  }

  lemma {:induction false} OthersConcat(a: seq<Rule>, b: seq<Rule>, alert: string)
    ensures Others(a + b, alert) == Others(a, alert) + Others(b, alert)
    ensures Count(a + b, alert) == Count(a, alert) + Count(b, alert)
  {
    if a == [] {
      assert a + b == b;
    } else {
      assert (a + b)[1..] == a[1..] + b;
      OthersConcat(a[1..], b, alert);
    }
  }

  lemma SplitAt(rules: seq<Rule>, i: nat)
    requires i < |rules|
    ensures rules == rules[..i] + [rules[i]] + rules[i + 1..]
  {
  }

  /** Replacing a rule of one name by another of that name keeps the others and the count. */
  lemma ReplaceKeepsOthers(rules: seq<Rule>, i: nat, r: Rule, alert: string)
    requires i < |rules| && Named(rules[i], alert) && Named(r, alert)
    ensures Others(rules[i := r], alert) == Others(rules, alert)
    ensures Count(rules[i := r], alert) == Count(rules, alert)
  {
    SplitAt(rules, i);
    SplitAt(rules[i := r], i);
    OthersConcat(rules[..i] + [rules[i]], rules[i + 1..], alert);
    OthersConcat(rules[..i], [rules[i]], alert);
    OthersConcat(rules[..i] + [r], rules[i + 1..], alert);
    OthersConcat(rules[..i], [r], alert);
  }

  /** The count of any other name is a count over the others. */
  lemma {:induction false} CountInOthers(rules: seq<Rule>, alert: string, other: string)
    requires other != alert
    ensures Count(rules, other) == Count(Others(rules, alert), other)
  {
    if rules != [] {
      CountInOthers(rules[1..], alert, other);
      OthersConcat(if Named(rules[0], alert) then [] else [rules[0]], Others(rules[1..], alert), other);
    }
  }

  lemma {:induction false} OthersHaveNone(rules: seq<Rule>, alert: string)
    ensures Count(Others(rules, alert), alert) == 0
    ensures Others(Others(rules, alert), alert) == Others(rules, alert)
  {
    if rules != [] {
      OthersHaveNone(rules[1..], alert);
      var head := if Named(rules[0], alert) then [] else [rules[0]];
      OthersConcat(head, Others(rules[1..], alert), alert);
    }
  }

  lemma {:induction false} CountPositive(rules: seq<Rule>, alert: string)
    ensures Count(rules, alert) > 0 <==> exists i :: 0 <= i < |rules| && Named(rules[i], alert)
  {
    if rules != [] {
      CountPositive(rules[1..], alert);
      if exists i :: 0 <= i < |rules| && Named(rules[i], alert) {
        var i :| 0 <= i < |rules| && Named(rules[i], alert);
        if i > 0 { assert Named(rules[1..][i - 1], alert); }
      }
      if exists i :: 0 <= i < |rules[1..]| && Named(rules[1..][i], alert) {
        var i :| 0 <= i < |rules[1..]| && Named(rules[1..][i], alert);
        assert Named(rules[i + 1], alert);
      }
    }
  }

  /** Changing one group changes a total by the change of that group's share. */
  lemma {:induction false} TotalUpdate(groups: seq<Group>, i: nat, g: Group, loc: Locator)
    requires i < |groups|
    ensures Total(groups[i := g], loc) - Share(g, loc) == Total(groups, loc) - Share(groups[i], loc)
  {
    if i > 0 {
      assert groups[i := g][1..] == groups[1..][i - 1 := g];
      TotalUpdate(groups[1..], i - 1, g, loc);
    }
  }

  function Share(g: Group, loc: Locator): nat {
    if InScope(g, loc) then Count(RulesOf(g), loc.alert) else 0
  }

  lemma {:induction false} TotalZero(groups: seq<Group>, alert: string)
    ensures Total(groups, Locator("", alert)) == 0 <==> !HasAlert(groups, alert)
  {
    if groups != [] {
      TotalZero(groups[1..], alert);
      CountPositive(RulesOf(groups[0]), alert);
      assert HasAlert(groups, alert) <==> HasRule(groups[0], alert) || HasAlert(groups[1..], alert) by {
        if HasAlert(groups, alert) && !HasRule(groups[0], alert) {
          var i :| 0 <= i < |groups| && HasRule(groups[i], alert);
          assert HasRule(groups[1..][i - 1], alert);
        }
        if HasAlert(groups[1..], alert) {
          var i :| 0 <= i < |groups[1..]| && HasRule(groups[1..][i], alert);
          assert HasRule(groups[i + 1], alert);
        }
      }
    }
  }

  lemma {:induction false} TotalElsewhere(a: seq<Group>, b: seq<Group>, alert: string, loc: Locator)
    requires SameElsewhere(a, b, alert) && loc.alert != alert
    requires loc.group == "" || forall i :: 0 <= i < |a| ==> a[i].Group? == b[i].Group?
    ensures Total(a, loc) == Total(b, loc)
  {
    if a != [] {
      CountInOthers(RulesOf(a[0]), alert, loc.alert);
      CountInOthers(RulesOf(b[0]), alert, loc.alert);
      TotalElsewhere(a[1..], b[1..], alert, loc);
    }
  }

  predicate Contains(groups: seq<Group>, rule: Rule) {
    exists g, r :: 0 <= g < |groups| && 0 <= r < |RulesOf(groups[g])| && RulesOf(groups[g])[r] == rule
  }

  lemma ReplaceFrame(groups: seq<Group>, alert: string, rule: Rule)
    requires Named(rule, alert) && HasAlert(groups, alert)
    ensures var out := ReplaceFirst(groups, alert, rule);
            && Total(out, Locator("", alert)) == Total(groups, Locator("", alert))
            && SameElsewhere(groups, out, alert) && Contains(out, rule)
  {
    var out, gi := ReplaceFirst(groups, alert, rule), FirstGroup(groups, alert);
    var rules := RulesOf(groups[gi]);
    var ri := FirstRule(rules, alert);
    ReplaceKeepsOthers(rules, ri, rule, alert);
    TotalUpdate(groups, gi, out[gi], Locator("", alert));
    assert RulesOf(out[gi])[ri] == rule;
  }

  lemma AppendFirstFrame(groups: seq<Group>, alert: string, rule: Rule)
    requires Named(rule, alert) && groups != [] && !HasAlert(groups, alert)
    ensures var out := groups[0 := AppendTo(groups[0], LEGACY_GROUP, rule)];
            && Total(out, Locator("", alert)) == 1
            && SameElsewhere(groups, out, alert) && Contains(out, rule)
  {
    var out := groups[0 := AppendTo(groups[0], LEGACY_GROUP, rule)];
    var rules := RulesOf(groups[0]);
    TotalZero(groups, alert);
    OthersConcat(rules, [rule], alert);
    assert RulesOf(out[0])[|rules|] == rule;
    assert !HasRule(groups[0], alert);
    CountPositive(rules, alert);
    TotalUpdate(groups, 0, out[0], Locator("", alert));
  }

  /** Create-or-replace leaves every other rule, and every rule's place, unchanged; afterwards the
      rule is there, and there are no more rules of its name than before, or one. */
  lemma UpsertFrame(groups: seq<Group>, alert: string, rule: Rule)
    requires Named(rule, alert)
    ensures var out := Upsert(groups, alert, rule);
            && Total(out, Locator("", alert))
               == (if HasAlert(groups, alert) then Total(groups, Locator("", alert)) else 1)
            && (groups != [] ==> SameElsewhere(groups, out, alert))
            && Contains(out, rule)
  {
    if groups == [] {
      var out := Upsert(groups, alert, rule);
      assert Total(out, Locator("", alert)) == Count([rule], alert);
      assert RulesOf(out[0])[0] == rule;
    } else if HasAlert(groups, alert) {
      ReplaceFrame(groups, alert, rule);
    } else {
      AppendFirstFrame(groups, alert, rule);
    }
  }

  /** `b` differs from `a` at most in rule `ri` of group `gi`. */
  predicate SameButAt(a: seq<Group>, b: seq<Group>, gi: nat, ri: nat) {
    && |a| == |b| && gi < |a| && a[gi].Group? && b[gi].Group? && a[gi].fields == b[gi].fields
    && (forall i :: 0 <= i < |a| && i != gi ==> a[i] == b[i])
    && |RulesOf(a[gi])| == |RulesOf(b[gi])| && ri < |RulesOf(a[gi])|
    && (forall r :: 0 <= r < |RulesOf(a[gi])| && r != ri ==> RulesOf(a[gi])[r] == RulesOf(b[gi])[r])
  }

  /** `b` is `a` without rule `ri` of group `gi`. */
  predicate SameWithout(a: seq<Group>, b: seq<Group>, gi: nat, ri: nat) {
    && |a| == |b| && gi < |a| && a[gi].Group? && b[gi].Group? && a[gi].fields == b[gi].fields
    && (forall i :: 0 <= i < |a| && i != gi ==> a[i] == b[i])
    && ri < |RulesOf(a[gi])| == |RulesOf(b[gi])| + 1
    && (forall r :: 0 <= r < ri ==> RulesOf(a[gi])[r] == RulesOf(b[gi])[r])
    && (forall r :: ri < r < |RulesOf(a[gi])| ==> RulesOf(a[gi])[r] == RulesOf(b[gi])[r - 1])
  }

  /** Rule `ri` of group `gi` is the first of its name, in group order. */
  predicate FirstOfName(groups: seq<Group>, alert: string, gi: nat, ri: nat) {
    && gi < |groups| && ri < |RulesOf(groups[gi])| && Named(RulesOf(groups[gi])[ri], alert)
    && (forall i :: 0 <= i < gi ==> !HasRule(groups[i], alert))
    && (forall r :: 0 <= r < ri ==> !Named(RulesOf(groups[gi])[r], alert))
  }

  /** Where create-or-replace puts the rule: over the first of its name, leaving even other rules of that
      name; else at the end of the first group, which replaces an entry that is no group; else in a group
      of its own. */
  lemma UpsertPlace(groups: seq<Group>, alert: string, rule: Rule)
    ensures var out := Upsert(groups, alert, rule);
            && (HasAlert(groups, alert) ==>
                  exists gi: nat, ri: nat :: FirstOfName(groups, alert, gi, ri) && SameButAt(groups, out, gi, ri)
                                   && RulesOf(out[gi])[ri] == rule)
            && (!HasAlert(groups, alert) && groups != [] ==>
                  && |out| == |groups| && (forall i :: 0 < i < |out| ==> out[i] == groups[i])
                  && out[0].Group? && RulesOf(out[0]) == RulesOf(groups[0]) + [rule]
                  && out[0].fields
                     == if groups[0].Group? then groups[0].fields else map["name" := Text("kubernetes-apps")])
            && (groups == [] ==>
                  && |out| == 1 && out[0].Group? && RulesOf(out[0]) == [rule]
                  && out[0].fields == map["name" := Text("kubernetes-apps")])
  {
    if HasAlert(groups, alert) {
      var gi := FirstGroup(groups, alert);
      var ri := FirstRule(RulesOf(groups[gi]), alert);
      assert FirstOfName(groups, alert, gi, ri) && SameButAt(groups, Upsert(groups, alert, rule), gi, ri);
    }
  }

  /** Delete leaves every other rule and its order unchanged, and no rule of the name remains. */
  lemma RemoveFrame(groups: seq<Group>, alert: string)
    ensures var out := RemoveAlert(groups, alert);
            SameElsewhere(groups, out, alert) && Total(out, Locator("", alert)) == 0
  {
    var out := RemoveAlert(groups, alert);
    forall i | 0 <= i < |groups|
      ensures Others(RulesOf(out[i]), alert) == Others(RulesOf(groups[i]), alert) && !HasRule(out[i], alert)
    {
      OthersHaveNone(RulesOf(groups[i]), alert);
      CountPositive(RulesOf(out[i]), alert);
    }
    TotalZero(out, alert);
  }

  /** At most one rule per alert name, in the whole resource. */
  ghost predicate UniqueAlerts(groups: seq<Group>) {
    forall alert: string :: Total(groups, Locator("", alert)) <= 1
  }

  lemma UpsertKeepsUnique(groups: seq<Group>, alert: string, rule: Rule)
    requires UniqueAlerts(groups) && Named(rule, alert)
    ensures UniqueAlerts(Upsert(groups, alert, rule))
  {
    var out := Upsert(groups, alert, rule);
    UpsertFrame(groups, alert, rule);
    forall b: string
      ensures Total(out, Locator("", b)) <= 1
    {
      if b != alert {
        if groups == [] {
          assert out[1..] == [] && RulesOf(out[0]) == [rule] && [rule][1..] == [];
          assert Count([rule], b) == 0;
        } else {
          TotalElsewhere(groups, out, alert, Locator("", b));
        }
      }
    }
  }

  lemma RemoveKeepsUnique(groups: seq<Group>, alert: string)
    requires UniqueAlerts(groups)
    ensures UniqueAlerts(RemoveAlert(groups, alert))
  {
    var out := RemoveAlert(groups, alert);
    RemoveFrame(groups, alert);
    forall b: string
      ensures Total(out, Locator("", b)) <= 1
    {
      if b != alert { TotalElsewhere(groups, out, alert, Locator("", b)); }
    }
  }

  // ---------------------------------------------------------------- located edits

  /** At most one rule per group name and alert name. */
  ghost predicate UniqueInGroups(groups: seq<Group>) {
    forall group: string, alert: string :: group != "" ==> Total(groups, Locator(group, alert)) <= 1
  }

  /** A patch writes the expression, writes the duration only when one is given, and keeps every other
      field of the rule. */
  lemma PatchedFields(r: Rule, c: Change)
    requires r.Rule?
    ensures var f := Patched(r, c).fields;
            && Str(f, "expr") == c.expr
            && (if c.duration != "" then Str(f, "for") == c.duration
                else ("for" in f <==> "for" in r.fields) && ("for" in f ==> f["for"] == r.fields["for"]))
            && f - {"expr", "for"} == r.fields - {"expr", "for"}
            && Str(f, "alert") == Str(r.fields, "alert")
  {
  }

  /** A patch of one rule leaves every other rule and its place unchanged, and every total. */
  lemma PatchFrame(groups: seq<Group>, gi: nat, ri: nat, c: Change, loc: Locator)
    requires gi < |groups| && groups[gi].Group? && ri < |RulesOf(groups[gi])| && RulesOf(groups[gi])[ri].Rule?
    ensures var r := RulesOf(groups[gi])[ri];
            var out := SetRule(groups, gi, ri, Patched(r, c));
            && SameElsewhere(groups, out, Str(r.fields, "alert"))
            && Total(out, loc) == Total(groups, loc)
  {
    var rules := RulesOf(groups[gi]);
    var r := rules[ri];
    PatchedFields(r, c);
    ReplaceKeepsOthers(rules, ri, Patched(r, c), Str(r.fields, "alert"));
    ReplaceKeepsCount(rules, ri, Patched(r, c), loc.alert);
    TotalUpdate(groups, gi, WithRules(groups[gi], rules[ri := Patched(r, c)]), loc);
  }

  lemma ReplaceKeepsCount(rules: seq<Rule>, i: nat, r: Rule, alert: string)
    requires i < |rules| && Named(rules[i], alert) == Named(r, alert)
    ensures Count(rules[i := r], alert) == Count(rules, alert)
  {
    SplitAt(rules, i);
    SplitAt(rules[i := r], i);
    OthersConcat(rules[..i] + [rules[i]], rules[i + 1..], alert);
    OthersConcat(rules[..i], [rules[i]], alert);
    OthersConcat(rules[..i] + [r], rules[i + 1..], alert);
    OthersConcat(rules[..i], [r], alert);
    assert Count([rules[i]], alert) == Count([r], alert);
  }

  lemma DropKeepsOthers(rules: seq<Rule>, i: nat, alert: string)
    requires i < |rules|
    ensures var out := rules[..i] + rules[i + 1..];
            && Count(out, alert) == Count(rules, alert) - (if Named(rules[i], alert) then 1 else 0)
            && (Named(rules[i], alert) ==> Others(out, alert) == Others(rules, alert))
  {
    SplitAt(rules, i);
    OthersConcat(rules[..i] + [rules[i]], rules[i + 1..], alert);
    OthersConcat(rules[..i], [rules[i]], alert);
    OthersConcat(rules[..i], rules[i + 1..], alert);
    assert Count([rules[i]], alert) == if Named(rules[i], alert) then 1 else 0;
    assert Named(rules[i], alert) ==> Others([rules[i]], alert) == [];
  }

  /** Dropping one rule leaves every other rule and the order unchanged, and lowers by one the totals
      that count it. */
  lemma DropFrame(groups: seq<Group>, gi: nat, ri: nat, loc: Locator)
    requires gi < |groups| && groups[gi].Group? && ri < |RulesOf(groups[gi])|
    ensures var r := RulesOf(groups[gi])[ri];
            var out := DropRule(groups, gi, ri);
            && (r.Rule? ==> SameElsewhere(groups, out, Str(r.fields, "alert")))
            && Total(out, loc)
               == Total(groups, loc) - (if InScope(groups[gi], loc) && Named(r, loc.alert) then 1 else 0)
  {
    var rules := RulesOf(groups[gi]);
    DropKeepsOthers(rules, ri, loc.alert);
    if rules[ri].Rule? { DropKeepsOthers(rules, ri, Str(rules[ri].fields, "alert")); }
    TotalUpdate(groups, gi, WithRules(groups[gi], rules[..ri] + rules[ri + 1..]), loc);
  }

  /** Appending to a group adds one to the total of that group and alert, and to no other. */
  lemma {:induction false} AppendFrame(groups: seq<Group>, name: string, rule: Rule, loc: Locator)
    requires rule.Rule?
    ensures Total(AppendToGroup(groups, name, rule), loc)
         == Total(groups, loc) + (if (loc.group == "" || loc.group == name) && Named(rule, loc.alert) then 1 else 0)
  {
    assert Count([rule], loc.alert) == if Named(rule, loc.alert) then 1 else 0;
    if groups == [] {
      assert Total([NewGroup(name, rule)], loc) == Share(NewGroup(name, rule), loc) + Total([], loc);
    } else if groups[0].Group? && Str(groups[0].fields, "name") == name {
      OthersConcat(RulesOf(groups[0]), [rule], loc.alert);
    } else {
      AppendFrame(groups[1..], name, rule, loc);
    }
  }
}
