/** Multi-window burn-rate alerting on a service-level objective, in exact arithmetic. */
module BurnRate {
  import opened Options

  datatype Severity = Fine | Warning | Critical

  /** Windows are in seconds. */
  datatype AlertRule = AlertRule(longWindow: int, shortWindow: int, threshold: real, severity: Severity)

  const ALERT_RULES := [AlertRule(3600, 300, 14.4, Critical), AlertRule(21600, 900, 6.0, Critical)]
  const MIN_COVERAGE := 0.5

  datatype WindowStats = WindowStats(good: real, bad: real, valid: real, hasValid: bool, coverage: real)
  {
    /** A valid series is the total; without one the total is good and bad together. */
    function Total(): real {
      if hasValid then valid else good + bad
    }

    function BadCount(): real {
      if !hasValid then bad else if valid - good > 0.0 then valid - good else 0.0
    }

    /** None when the window cannot be judged: too little of it reported, or it saw no events. */
    function BadRatio(): Option<real> {
      if coverage < MIN_COVERAGE then None
      else if Total() <= 0.0 then None
      else Some(BadCount() / Total())
    }

    predicate Counts() {
      good >= 0.0 && bad >= 0.0 && valid >= 0.0
    }
  }

  /** To the nearest integer, halves away from zero. */
  function Round(x: real): int {
    if x >= 0.0 then (x + 0.5).Floor else -(0.5 - x).Floor
  }

  function Round1(x: real): real {
    Round(x * 10.0) as real / 10.0
  }

  function Round6(x: real): real {
    Round(x * 1000000.0) as real / 1000000.0
  }

  datatype BurnRate = BurnRate(
    longWindow: int, shortWindow: int, threshold: real,
    longPercentage: real, shortPercentage: real,
    longRate: real, shortRate: real, severity: Severity)

  type Windows = map<int, WindowStats>

  predicate Judged(w: Windows, r: AlertRule) {
    && r.longWindow in w && r.shortWindow in w
    && w[r.longWindow].BadRatio().Some? && w[r.shortWindow].BadRatio().Some?
  }

  /** The rule fires: both windows are judged and burn above the threshold after rounding. */
  predicate Fires(w: Windows, goal: real, r: AlertRule) {
    && goal < 1.0 && Judged(w, r)
    && Round1(w[r.longWindow].BadRatio().value / (1.0 - goal)) > r.threshold
    && Round1(w[r.shortWindow].BadRatio().value / (1.0 - goal)) > r.threshold
  }

  function Report(w: Windows, goal: real, r: AlertRule): BurnRate
    requires goal < 1.0 && Judged(w, r)
  {
    var long, short := w[r.longWindow].BadRatio().value, w[r.shortWindow].BadRatio().value;
    BurnRate(r.longWindow, r.shortWindow, r.threshold, Round6(long * 100.0), Round6(short * 100.0),
             Round1(long / (1.0 - goal)), Round1(short / (1.0 - goal)), if Fires(w, goal, r) then r.severity else Fine)
  }

  /** One report for every rule that can be judged, in rule order. */
  function Reports(w: Windows, goal: real, rules: seq<AlertRule>): seq<BurnRate>
    requires goal < 1.0
  {
    if rules == [] then []
    else
      var last := rules[|rules| - 1];
      Reports(w, goal, rules[..|rules| - 1]) + if Judged(w, last) then [Report(w, goal, last)] else []
  }

  method CalcBurnRates(w: Windows, goal: real) returns (rates: seq<BurnRate>)
    ensures goal >= 1.0 ==> rates == []
    ensures goal < 1.0 ==> rates == Reports(w, goal, ALERT_RULES)
  {
    var objective := 1.0 - goal;
    if objective <= 0.0 {
      return [];
    }
    rates := [];
    for k := 0 to |ALERT_RULES|
      invariant rates == Reports(w, goal, ALERT_RULES[..k])
    {
      var r := ALERT_RULES[k];
      assert ALERT_RULES[..k + 1][..k] == ALERT_RULES[..k];
      if r.longWindow !in w || r.shortWindow !in w {
        continue;
      }
      var long, short := w[r.longWindow].BadRatio(), w[r.shortWindow].BadRatio();
      if long.None? || short.None? {
        continue;
      }
      var br := BurnRate(r.longWindow, r.shortWindow, r.threshold,
                         Round6(long.value * 100.0), Round6(short.value * 100.0),
                         Round1(long.value / objective), Round1(short.value / objective), Fine);
      if br.longRate > r.threshold && br.shortRate > r.threshold {
        br := br.(severity := r.severity);
      }
      rates := rates + [br];
    }
    assert ALERT_RULES[..|ALERT_RULES|] == ALERT_RULES;
  }

  function Rank(s: Severity): nat {
    match s case Fine => 0 case Warning => 1 case Critical => 2
  }

  /** The highest severity, and the first rate that has it; no rate when nothing fires. */
  method WorstSeverity(rates: seq<BurnRate>) returns (worst: Severity, firing: Option<BurnRate>)
    ensures worst == Critical <==> exists k :: 0 <= k < |rates| && rates[k].severity == Critical
    ensures worst == Fine <==> forall k :: 0 <= k < |rates| ==> rates[k].severity == Fine
    ensures forall k :: 0 <= k < |rates| ==> Rank(rates[k].severity) <= Rank(worst)
    ensures firing.None? <==> worst == Fine
    ensures firing.Some? ==> exists k :: 0 <= k < |rates| && rates[k] == firing.value && rates[k].severity == worst
                                         && forall j :: 0 <= j < k ==> Rank(rates[j].severity) < Rank(worst)
  {
    worst, firing := Fine, None;
    for n := 0 to |rates|
      invariant forall k :: 0 <= k < n ==> Rank(rates[k].severity) <= Rank(worst)
      invariant firing.None? <==> worst == Fine
      invariant firing.Some? ==> exists k :: 0 <= k < n && rates[k] == firing.value && rates[k].severity == worst
                                            && forall j :: 0 <= j < k ==> Rank(rates[j].severity) < Rank(worst)
    {
      if Rank(rates[n].severity) > Rank(worst) {
        worst := rates[n].severity;
        firing := Some(rates[n]);
      }
    }
  }

  /** What is attached to a report: its burn rates, severity and alert flag, and the rate that fired. */
  datatype Attached = Attached(rates: seq<BurnRate>, severity: Severity, alert: bool, firing: Option<BurnRate>)

  /** Evaluates the rules and attaches the result, to a report that is marked valid only. */
  method AttachBurnRates(valid: bool, w: Windows, goal: real) returns (report: Option<Attached>)
    ensures report.Some? <==> valid
    ensures valid ==> report.value.alert == Alerts(w, goal) && report.value.alert == (report.value.severity != Fine)
    ensures valid ==> report.value.alert == report.value.firing.Some?
    ensures valid ==> Highest(w, goal, report.value.severity)
    ensures valid ==> report.value.rates == if goal < 1.0 then Reports(w, goal, ALERT_RULES) else []
    ensures valid && report.value.firing.Some? ==>
              report.value.firing.value in report.value.rates
              && report.value.firing.value.severity == report.value.severity
  {
    if !valid {
      return None;
    }
    var rates, worst, firing := Evaluate(w, goal);
    return Some(Attached(rates, worst, worst != Fine, firing));
  }

  /** The severity is the highest of the rules that fire, or none fires. */
  ghost predicate Highest(w: Windows, goal: real, severity: Severity) {
    && (forall r :: r in ALERT_RULES && Fires(w, goal, r) ==> Rank(r.severity) <= Rank(severity))
    && (severity != Fine ==> exists r :: r in ALERT_RULES && Fires(w, goal, r) && r.severity == severity)
  }

  /** The rules' reports and the worst of them. */
  method Evaluate(w: Windows, goal: real)
    returns (rates: seq<BurnRate>, worst: Severity, firing: Option<BurnRate>)
    ensures (worst != Fine) == Alerts(w, goal) == firing.Some?
    ensures Highest(w, goal, worst)
    ensures rates == if goal < 1.0 then Reports(w, goal, ALERT_RULES) else []
    ensures firing.Some? ==> firing.value in rates && firing.value.severity == worst
  {
    rates := CalcBurnRates(w, goal);
    worst, firing := WorstSeverity(rates);
    if goal < 1.0 {
      forall r | r in ALERT_RULES && Fires(w, goal, r)
        ensures Rank(r.severity) <= Rank(worst)
      {
        ReportsEach(w, goal, ALERT_RULES, r);
      }
      if firing.Some? {
        ReportsOnly(w, goal, ALERT_RULES, firing.value);
      }
    }
  }

  ghost predicate Alerts(w: Windows, goal: real) {
    exists r :: r in ALERT_RULES && Fires(w, goal, r)
  }

  lemma {:induction false} ReportsEach(w: Windows, goal: real, rules: seq<AlertRule>, r: AlertRule)
    requires goal < 1.0 && r in rules && Judged(w, r)
    ensures Report(w, goal, r) in Reports(w, goal, rules)
  {
    var n := |rules| - 1;
    if r != rules[n] {
      ReportsEach(w, goal, rules[..n], r);
    }
  }

  lemma {:induction false} ReportsOnly(w: Windows, goal: real, rules: seq<AlertRule>, b: BurnRate)
    requires goal < 1.0 && b in Reports(w, goal, rules)
    ensures exists r :: r in rules && Judged(w, r) && b == Report(w, goal, r)
  {
    var n := |rules| - 1;
    if b in Reports(w, goal, rules[..n]) {
      ReportsOnly(w, goal, rules[..n], b);
    }
  }

  // ---------------------------------------------------------------- rounding

  lemma RoundMonotone(x: real, y: real)
    requires x <= y
    ensures Round(x) <= Round(y)
  {
  }

  /** Rounding moves a rate by at most half of the last decimal, and keeps the order of rates. */
  lemma Round1Nearest(x: real, y: real)
    ensures -0.05 <= Round1(x) - x <= 0.05
    ensures x <= y ==> Round1(x) <= Round1(y)
  {
    if x <= y {
      RoundMonotone(x * 10.0, y * 10.0);
    }
  }

  /** A threshold with one decimal: what the rounded comparison means for the unrounded rate. */
  predicate OneDecimal(t: real) {
    t >= 0.0 && (t * 10.0).Floor as real == t * 10.0
  }

  lemma AboveThreshold(x: real, t: real)
    requires OneDecimal(t)
    ensures Round1(x) > t <==> x >= t + 0.05
  {
    var n := (t * 10.0).Floor;
    assert Round1(x) > t <==> Round(x * 10.0) > n;
    assert Round(x * 10.0) > n <==> x * 10.0 + 0.5 >= (n + 1) as real;
  }

  // ---------------------------------------------------------------- what an alert means

  lemma DivideScale(a: real, c: real, d: real)
    requires c > 0.0
    ensures a / c >= d <==> a >= d * c
  {
    assert a == (a / c) * c;
    if a / c >= d { assert (a / c) * c >= d * c; }
    else { assert (a / c) * c < d * c; }
  }

  /** A window burns at `rate` times the budget or faster: at least half of it reported, it saw events, and of
      these at least that share was bad. With a valid series, bad is what is valid and not good. */
  predicate Burns(s: WindowStats, goal: real, rate: real) {
    HasBadShare(s, rate * (1.0 - goal))
  }

  predicate HasBadShare(s: WindowStats, share: real) {
    && s.coverage >= 0.5
    && if s.hasValid then s.valid > 0.0 && s.valid - s.good >= share * s.valid
       else s.good + s.bad > 0.0 && s.bad >= share * (s.good + s.bad)
  }

  lemma ShareIsBad(s: WindowStats, share: real)
    requires share > 0.0 && s.BadRatio().Some?
    ensures s.BadRatio().value >= share <==> HasBadShare(s, share)
  {
    Positive(share, s.Total());
    DivideScale(s.BadCount(), s.Total(), share);
  }

  lemma RateIsShare(q: real, budget: real, t: real, share: real)
    requires budget > 0.0 && OneDecimal(t) && share == (t + 0.05) * budget
    ensures share > 0.0
    ensures Round1(q / budget) > t <==> q >= share
  {
    AboveThreshold(q / budget, t);
    DivideScale(q, budget, t + 0.05);
    Positive(t + 0.05, budget);
  }

  lemma WindowBurns(s: WindowStats, goal: real, t: real)
    requires goal < 1.0 && OneDecimal(t)
    ensures s.BadRatio().Some? && Round1(s.BadRatio().value / (1.0 - goal)) > t <==> Burns(s, goal, t + 0.05)
  {
    if s.BadRatio().Some? {
      var share := (t + 0.05) * (1.0 - goal);
      RateIsShare(s.BadRatio().value, 1.0 - goal, t, share);
      ShareIsBad(s, share);
    }
  }

  lemma Positive(a: real, b: real)
    requires a > 0.0 && b > 0.0
    ensures a * b > 0.0
  {
  }

  /** What a window's ratio is: its bad events among all, in the counts alone; none when the window cannot be
      judged. */
  lemma BadRatioMeans(s: WindowStats)
    ensures s.BadRatio().Some? <==>
            s.coverage >= 0.5 && (if s.hasValid then s.valid > 0.0 else s.good + s.bad > 0.0)
    ensures s.BadRatio().Some? ==>
              var x := s.BadRatio().value;
              if !s.hasValid then x * (s.good + s.bad) == s.bad
              else if s.good <= s.valid then x * s.valid == s.valid - s.good else x == 0.0
  {
    if s.BadRatio().Some? && s.hasValid && s.good > s.valid {
      assert 0.0 / s.valid == 0.0;
    }
  }

  /** The figures of a report: percentages to six decimals and rates to one, of the rule's two windows. */
  lemma ReportMeans(w: Windows, goal: real, r: AlertRule)
    requires goal < 1.0 && Judged(w, r)
    ensures var b, x, y := Report(w, goal, r), w[r.longWindow].BadRatio().value, w[r.shortWindow].BadRatio().value;
            && b.longWindow == r.longWindow && b.shortWindow == r.shortWindow && b.threshold == r.threshold
            && -0.0000005 <= b.longPercentage - 100.0 * x <= 0.0000005
            && -0.0000005 <= b.shortPercentage - 100.0 * y <= 0.0000005
            && -0.05 <= b.longRate - x / (1.0 - goal) <= 0.05 && -0.05 <= b.shortRate - y / (1.0 - goal) <= 0.05
            && (b.severity == if b.longRate > b.threshold && b.shortRate > b.threshold then r.severity else Fine)
  {
    var x, y := w[r.longWindow].BadRatio().value, w[r.shortWindow].BadRatio().value;
    Round6Nearest(x * 100.0);
    Round6Nearest(y * 100.0);
    Round1Nearest(x / (1.0 - goal), 0.0);
    Round1Nearest(y / (1.0 - goal), 0.0);
  }

  lemma Round6Nearest(x: real)
    ensures -0.0000005 <= Round6(x) - x <= 0.0000005
  {
  }

  /** A rule fires exactly when the bad events of both windows reach the threshold and half of its
      last decimal, as a multiple of the error budget. */
  lemma FiresIff(w: Windows, goal: real, r: AlertRule)
    requires goal < 1.0 && OneDecimal(r.threshold)
    ensures Fires(w, goal, r) <==>
            && r.longWindow in w && r.shortWindow in w
            && Burns(w[r.longWindow], goal, r.threshold + 0.05)
            && Burns(w[r.shortWindow], goal, r.threshold + 0.05)
  {
    if r.longWindow in w && r.shortWindow in w {
      WindowBurns(w[r.longWindow], goal, r.threshold);
      WindowBurns(w[r.shortWindow], goal, r.threshold);
    }
  }

  /** The shipped rules: an objective alerts exactly when an hour and its last five minutes burn at 14.45 times the
      budget, or six hours and their last fifteen minutes at 6.05 times. */
  lemma AlertsIff(w: Windows, goal: real)
    ensures Alerts(w, goal) <==>
            && goal < 1.0
            && ((3600 in w && 300 in w && Burns(w[3600], goal, 14.45) && Burns(w[300], goal, 14.45))
                || (21600 in w && 900 in w && Burns(w[21600], goal, 6.05) && Burns(w[900], goal, 6.05)))
  {
    if goal < 1.0 {
      var fast, slow := ALERT_RULES[0], ALERT_RULES[1];
      assert ALERT_RULES == [fast, slow];
      FiresIff(w, goal, fast);
      FiresIff(w, goal, slow);
    }
  }

  /** The reports are those of the rules that can be judged, in rule order. */
  lemma ReportsInOrder(w: Windows, goal: real)
    requires goal < 1.0
    ensures var fast, slow := AlertRule(3600, 300, 14.4, Critical), AlertRule(21600, 900, 6.0, Critical);
            var first := if Judged(w, fast) then [Report(w, goal, fast)] else [];
            var second := if Judged(w, slow) then [Report(w, goal, slow)] else [];
            Reports(w, goal, ALERT_RULES) == first + second
  {
    assert ALERT_RULES[..1] == [ALERT_RULES[0]] && ALERT_RULES[..1][..0] == [];
    assert Reports(w, goal, []) == [];
    assert Reports(w, goal, ALERT_RULES[..1]) ==
           if Judged(w, ALERT_RULES[0]) then [Report(w, goal, ALERT_RULES[0])] else [];
  }

  // ---------------------------------------------------------------- monotone

  /** The same window with no fewer bad and no more good events under the same valid total. */
  predicate Worse(a: WindowStats, b: WindowStats) {
    && a.Counts() && b.Counts()
    && a.hasValid == b.hasValid && a.valid == b.valid && a.coverage == b.coverage
    && a.bad <= b.bad && b.good <= a.good
  }

  predicate WorseEverywhere(v: Windows, w: Windows) {
    v.Keys <= w.Keys && forall k :: k in v ==> Worse(v[k], w[k])
  }

  lemma Product(a: real, b: real)
    requires b >= 0.0
    ensures a >= 0.0 ==> a * b >= 0.0
    ensures b > 0.0 && a * b >= 0.0 ==> a >= 0.0
  {
  }

  lemma RatioGrows(bad: real, good: real, bad': real, good': real)
    requires 0.0 <= bad <= bad' && 0.0 <= good' <= good
    ensures bad' * (bad + good) >= bad * (bad' + good')
  {
    Product(bad' - bad, good);
    Product(good - good', bad);
  }

  /** Fractions compared by cross-multiplication. */
  lemma RatioOrder(a: real, s: real, b: real, t: real)
    requires s > 0.0 && t > 0.0 && b * s >= a * t
    ensures b / t >= a / s
  {
    var q := a / s;
    assert a == q * s;
    assert b * s - q * s * t == (b - q * t) * s;
    Product(b - q * t, s);
    DivideScale(b, t, q);
  }

  /** The one way a window with bad events can go silent as things get worse is to lose its last
      event; that takes a total made of good events alone, whose ratio is zero. */
  lemma WorseRatio(a: WindowStats, b: WindowStats)
    requires Worse(a, b) && a.BadRatio().Some?
    ensures b.BadRatio().Some? ==> b.BadRatio().value >= a.BadRatio().value
    ensures b.BadRatio().None? ==> a.BadRatio().value == 0.0
  {
    if b.BadRatio().Some? {
      if !a.hasValid {
        RatioGrows(a.bad, a.good, b.bad, b.good);
      } else {
        assert b.BadCount() >= a.BadCount();
        Product(b.BadCount() - a.BadCount(), a.valid);
      }
      RatioOrder(a.BadCount(), a.Total(), b.BadCount(), b.Total());
    }
  }

  lemma RateGrows(x: real, y: real, budget: real)
    requires x <= y && budget > 0.0
    ensures Round1(x / budget) <= Round1(y / budget)
  {
    DivideScale(y, budget, x / budget);
    Round1Nearest(x / budget, y / budget);
  }

  lemma NothingBurns(budget: real)
    requires budget > 0.0
    ensures Round1(0.0 / budget) == 0.0
  {
    assert 0.0 / budget == 0.0;
  }

  lemma WorseRate(a: WindowStats, b: WindowStats, goal: real, t: real)
    requires Worse(a, b) && goal < 1.0 && t >= 0.0 && a.BadRatio().Some?
    requires Round1(a.BadRatio().value / (1.0 - goal)) > t
    ensures b.BadRatio().Some? && Round1(b.BadRatio().value / (1.0 - goal)) > t
  {
    WorseRatio(a, b);
    NothingBurns(1.0 - goal);
    assert b.BadRatio().Some?;
    RateGrows(a.BadRatio().value, b.BadRatio().value, 1.0 - goal);
  }

  /** More bad events, or fewer good ones under a fixed valid total, never turn a rule off. */
  lemma RulesAreMonotone(v: Windows, w: Windows, goal: real, r: AlertRule)
    requires WorseEverywhere(v, w) && r.threshold >= 0.0
    ensures Fires(v, goal, r) ==> Fires(w, goal, r)
  {
    if Fires(v, goal, r) {
      WorseRate(v[r.longWindow], w[r.longWindow], goal, r.threshold);
      WorseRate(v[r.shortWindow], w[r.shortWindow], goal, r.threshold);
    }
  }

  lemma AlertsAreMonotone(v: Windows, w: Windows, goal: real)
    requires WorseEverywhere(v, w)
    ensures Alerts(v, goal) ==> Alerts(w, goal)
  {
    if Alerts(v, goal) {
      var r :| r in ALERT_RULES && Fires(v, goal, r);
      RulesAreMonotone(v, w, goal, r);
    }
  }

  // ---------------------------------------------------------------- bounded

  lemma RatioAtMostOne(s: WindowStats)
    requires s.Counts() && s.BadRatio().Some?
    ensures 0.0 <= s.BadRatio().value <= 1.0
  {
    RatioOrder(s.BadCount(), s.Total(), s.Total(), s.Total());
    RatioOrder(0.0, 1.0, s.BadCount(), s.Total());
  }

  predicate AllCounts(w: Windows) {
    forall k :: k in w ==> w[k].Counts()
  }

  /** Every event of every window of the rule is bad. */
  function Outage(r: AlertRule): Windows {
    var all := WindowStats(0.0, 1.0, 0.0, false, 1.0);
    map[r.longWindow := all, r.shortWindow := all]
  }

  lemma OutageFires(goal: real, r: AlertRule)
    requires goal < 1.0 && OneDecimal(r.threshold) && (r.threshold + 0.05) * (1.0 - goal) <= 1.0
    ensures AllCounts(Outage(r)) && Fires(Outage(r), goal, r)
  {
    var w := Outage(r);
    var all := w[r.longWindow];
    assert w[r.shortWindow] == all && all.BadCount() == all.Total() == 1.0;
    var rate := r.threshold + 0.05;
    assert Burns(all, goal, rate) by { assert rate * (1.0 - goal) * all.Total() == rate * (1.0 - goal); }
    FiresIff(w, goal, r);
  }

  lemma FiringBound(w: Windows, goal: real, r: AlertRule)
    requires AllCounts(w) && Fires(w, goal, r) && OneDecimal(r.threshold)
    ensures (r.threshold + 0.05) * (1.0 - goal) <= 1.0
  {
    var s := w[r.longWindow];
    RatioAtMostOne(s);
    var q := s.BadRatio().value;
    AboveThreshold(q / (1.0 - goal), r.threshold);
    DivideScale(q, 1.0 - goal, r.threshold + 0.05);
  }

  /** A rule can fire on some counts exactly when the budget times the threshold and half of its last
      decimal is no more than one; a total outage then fires it. */
  lemma CanFireIff(goal: real, r: AlertRule)
    requires goal < 1.0 && OneDecimal(r.threshold)
    ensures (exists w :: AllCounts(w) && Fires(w, goal, r)) <==> (r.threshold + 0.05) * (1.0 - goal) <= 1.0
  {
    if (r.threshold + 0.05) * (1.0 - goal) <= 1.0 {
      OutageFires(goal, r);
    }
    forall w | AllCounts(w) && Fires(w, goal, r)
      ensures (r.threshold + 0.05) * (1.0 - goal) <= 1.0
    {
      FiringBound(w, goal, r);
    }
  }

  lemma BudgetPastThreshold(objective: real, t: real)
    requires t > 0.0 && objective >= 1.0 / t
    ensures (t + 0.05) * objective > 1.0
  {
    DivideScale(1.0, t, 1.0 / t);
    assert (1.0 / t) * t == 1.0;
    Product(objective - 1.0 / t, t);
    assert (t + 0.05) * objective == t * objective + 0.05 * objective;
    assert objective > 0.0 by { Product(1.0 / t, t); }
  }

  /** With a budget of at least one over the threshold the rule is dead, whatever the counts. */
  lemma DeadRule(w: Windows, goal: real, r: AlertRule)
    requires AllCounts(w) && r.threshold > 0.0 && OneDecimal(r.threshold) && 1.0 - goal >= 1.0 / r.threshold
    ensures !Fires(w, goal, r)
  {
    BudgetPastThreshold(1.0 - goal, r.threshold);
    if Fires(w, goal, r) {
      FiringBound(w, goal, r);
    }
  }

  /** An objective can alert at all exactly when its budget lies above nothing and at most 1/6.05. */
  lemma AlertPossibleIff(goal: real)
    ensures (exists w :: AllCounts(w) && Alerts(w, goal)) <==> goal < 1.0 && 6.05 * (1.0 - goal) <= 1.0
  {
    if goal < 1.0 {
      var fast, slow := ALERT_RULES[0], ALERT_RULES[1];
      assert ALERT_RULES == [fast, slow];
      CanFireIff(goal, fast);
      CanFireIff(goal, slow);
      if w :| AllCounts(w) && Fires(w, goal, slow) {
        assert slow in ALERT_RULES && Alerts(w, goal);
      }
    }
  }
}
