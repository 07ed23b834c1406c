/** What scripts/prism_load_regress.py reports, from the runs themselves: medians by counting, the limit by
    its three terms, and each part of the outcome by the runs it speaks of. */
module RegressionMeaning {
  import opened Common
  import opened Results
  import opened Sorting
  import opened Replays
  import opened Regression

  // ----- medians

  function AtMost(values: seq<real>, x: real): nat {
    if values == [] then 0
    else AtMost(values[..|values| - 1], x) + if values[|values| - 1] <= x then 1 else 0
  }

  function AtLeast(values: seq<real>, x: real): nat {
    if values == [] then 0
    else AtLeast(values[..|values| - 1], x) + if values[|values| - 1] >= x then 1 else 0
  }

  /** `x` is the value with `k` before it when they are put in order. */
  predicate IsRanked(values: seq<real>, x: real, k: nat) {
    k < |values| && x in values && AtMost(values, x) >= k + 1 && AtLeast(values, x) >= |values| - k
  }

  predicate AreMiddle(values: seq<real>, a: real, b: real) {
    |values| >= 2 && IsRanked(values, a, |values| / 2 - 1) && IsRanked(values, b, |values| / 2)
  }

  /** The middle value, or the mean of the two in the middle. */
  ghost predicate IsMedian(values: seq<real>, m: real) {
    if |values| % 2 == 1 then IsRanked(values, m, |values| / 2)
    else exists a, b :: AreMiddle(values, a, b) && a + b == 2.0 * m
  }

  lemma {:induction false} CountsAppend(a: seq<real>, b: seq<real>, x: real)
    ensures AtMost(a + b, x) == AtMost(a, x) + AtMost(b, x)
    ensures AtLeast(a + b, x) == AtLeast(a, x) + AtLeast(b, x)
  {
    if b == [] {
      assert a + b == a;
    } else {
      var n := |b| - 1;
      assert (a + b)[..|a| + n] == a + b[..n];
      CountsAppend(a, b[..n], x);
    }
  }

  lemma CountsOut(s: seq<real>, k: nat, x: real)
    requires k < |s|
    ensures AtMost(s, x) == AtMost(s[..k] + s[k + 1..], x) + if s[k] <= x then 1 else 0
    ensures AtLeast(s, x) == AtLeast(s[..k] + s[k + 1..], x) + if s[k] >= x then 1 else 0
  {
    assert s == s[..k] + ([s[k]] + s[k + 1..]);
    CountsAppend(s[..k], [s[k]] + s[k + 1..], x);
    CountsAppend([s[k]], s[k + 1..], x);
    CountsAppend(s[..k], s[k + 1..], x);
    assert [s[k]][..0] == [];
  }

  lemma {:induction false} CountsPermute(a: seq<real>, b: seq<real>, x: real)
    requires multiset(a) == multiset(b)
    ensures AtMost(a, x) == AtMost(b, x) && AtLeast(a, x) == AtLeast(b, x)
  {
    assert |a| == |multiset(a)| && |b| == |multiset(b)|;
    if a != [] {
      var n := |a| - 1;
      assert a[n] in multiset(b);
      assert a[n] in b;
      var k :| 0 <= k < |b| && b[k] == a[n];
      RemoveOne(a, n);
      RemoveOne(b, k);
      assert a[..n] + a[n + 1..] == a[..n];
      CountsPermute(a[..n], b[..k] + b[k + 1..], x);
      CountsOut(b, k, x);
    }
  }

  lemma {:induction false} AllAtMost(s: seq<real>, x: real)
    ensures (forall i :: 0 <= i < |s| ==> s[i] <= x) ==> AtMost(s, x) == |s|
    ensures (forall i :: 0 <= i < |s| ==> s[i] >= x) ==> AtLeast(s, x) == |s|
  {
    if s != [] {
      AllAtMost(s[..|s| - 1], x);
    }
  }

  lemma InOrderRanked(s: seq<real>, k: nat)
    requires (forall i, j :: 0 <= i < j < |s| ==> s[i] <= s[j]) && k < |s|
    ensures IsRanked(s, s[k], k)
  {
    var x, front, rest := s[k], s[..k + 1], s[k..];
    assert s == front + s[k + 1..] && s == s[..k] + rest;
    forall i | 0 <= i < |front|
      ensures front[i] <= x
    {
      assert i < k ==> s[i] <= s[k];
    }
    forall i | 0 <= i < |rest|
      ensures rest[i] >= x
    {
      assert i > 0 ==> s[k] <= s[k + i];
    }
    AllAtMost(front, x);
    AllAtMost(rest, x);
    CountsAppend(front, s[k + 1..], x);
    CountsAppend(s[..k], rest, x);
  }

  lemma SortedRanked(values: seq<real>, k: nat)
    requires k < |values|
    ensures IsRanked(values, Sort((x: real, y: real) => x <= y, values)[k], k)
  {
    var le := (x: real, y: real) => x <= y;
    var s := Sort(le, values);
    SortSorted(le, values);
    InOrderRanked(s, k);
    CountsPermute(s, values, s[k]);
    assert s[k] in multiset(s);
  }

  lemma MedianExactly(values: seq<real>)
    requires values != []
    ensures IsMedian(values, Median(values))
  {
    var s, half := Sort((x: real, y: real) => x <= y, values), |values| / 2;
    SortedRanked(values, half);
    if |values| % 2 == 0 {
      SortedRanked(values, half - 1);
      assert AreMiddle(values, s[half - 1], s[half]);
    }
  }

  /** There is one value of a rank, and so one median. */
  lemma OneRanked(values: seq<real>, x: real, y: real, k: nat)
    requires IsRanked(values, x, k) && IsRanked(values, y, k)
    ensures x == y
  {
    if x < y {
      Apart(values, x, y);
    } else if y < x {
      Apart(values, y, x);
    }
  }

  lemma {:induction false} Apart(values: seq<real>, x: real, y: real)
    requires x < y
    ensures AtMost(values, x) + AtLeast(values, y) <= |values|
  {
    if values != [] {
      Apart(values[..|values| - 1], x, y);
    }
  }

  lemma OneMedian(values: seq<real>, m: real, n: real)
    requires values != [] && IsMedian(values, m) && IsMedian(values, n)
    ensures m == n
  {
    if |values| % 2 == 1 {
      OneRanked(values, m, n, |values| / 2);
    } else {
      var a, b :| AreMiddle(values, a, b) && a + b == 2.0 * m;
      var c, d :| AreMiddle(values, c, d) && c + d == 2.0 * n;
      OneRanked(values, a, c, |values| / 2 - 1);
      OneRanked(values, b, d, |values| / 2);
    }
  }

  // ----- the limit

  function Size(x: real): real {
    if x < 0.0 then -x else x
  }

  /** How far each value is from `m`. */
  predicate AreDistances(distances: seq<real>, values: seq<real>, m: real) {
    |distances| == |values| && forall i :: 0 <= i < |values| ==> distances[i] == Size(values[i] - m)
  }

  /** Measured, or the scaled median distance from the median. */
  ghost predicate IsSpread(spread: real, base: seq<real>, median: real, measured: Option<real>) {
    match measured
    case Some(cv) => spread == cv * Size(median)
    case None =>
      exists distances, d :: AreDistances(distances, base, median) && IsMedian(distances, d) && spread == 1.4826 * d
  }

  /** What is allowed is the largest of three terms. */
  predicate IsAllowed(allowed: real, rule: Rule, spread: real, median: real) {
    var measured, relative := rule.k * spread, rule.minRelative * Size(median);
    && allowed >= measured && allowed >= relative && allowed >= rule.minAbsolute
    && (allowed == measured || allowed == relative || allowed == rule.minAbsolute)
  }

  /** The limit a baseline gives. */
  ghost predicate IsLimit(rule: Rule, base: seq<real>, measured: Option<real>, t: Threshold) {
    && IsMedian(base, t.median) && IsSpread(t.spread, base, t.median, measured)
    && IsAllowed(t.allowed, rule, t.spread, t.median)
    && t.n == |base| && (t.provisional <==> measured.None?)
  }

  lemma DistancesFrom(base: seq<real>, m: real)
    ensures AreDistances(Deviations(base, m), base, m)
  {
  }

  lemma Scaled(distances: seq<real>, d: real, base: seq<real>, m: real)
    requires AreDistances(distances, base, m) && IsMedian(distances, d)
    ensures IsSpread(MAD_SCALE * d, base, m, None)
  {
  }

  lemma SpreadExactly(base: seq<real>, m: real, measured: Option<real>)
    requires base != []
    ensures IsSpread(SpreadOf(base, m, measured), base, m, measured)
  {
    if measured.None? {
      var distances := Deviations(base, m);
      MedianExactly(distances);
      DistancesFrom(base, m);
      Scaled(distances, Median(distances), base, m);
    }
  }

  lemma AllowedExactly(rule: Rule, spread: real, median: real)
    ensures IsAllowed(AllowedOf(rule, spread, median), rule, spread, median)
  {
  }

  lemma LimitExactly(rule: Rule, base: seq<real>, measured: Option<real>)
    requires base != []
    ensures IsLimit(rule, base, measured, ThresholdOf(rule, base, measured))
  {
    var median := Median(base);
    MedianExactly(base);
    SpreadExactly(base, median, measured);
    AllowedExactly(rule, SpreadOf(base, median, measured), median);
  }

  // ----- the outcome

  /** The value is on the worse side of the limit. */
  predicate Beyond(rule: Rule, t: Threshold, value: real) {
    match rule.worse
    case Higher => value > t.median + t.allowed
    case Lower => value < t.median - t.allowed
  }

  /** A run judged against a baseline: not at all when it is too short, and else flagged exactly when it is
      beyond the baseline's limit. */
  ghost predicate IsVerdict<R>(rule: Rule, base: seq<Run<R>>, next: Run<R>, v: Verdict) {
    if |base| < rule.minBaseline then v == Unjudged
    else
      exists t :: IsLimit(rule, Values(base), next.measured, t)
        && v == if Beyond(rule, t, next.value) then Flagged else Within
  }

  lemma VerdictExactly<R>(rule: Rule, base: seq<Run<R>>, next: Run<R>)
    requires rule.Loads()
    ensures IsVerdict(rule, base, next, JudgeOf(rule)(base, next))
  {
    if |base| >= rule.minBaseline {
      LimitExactly(rule, Values(base), next.measured);
      var t := ThresholdOf(rule, Values(base), next.measured);
      assert t.IsWorse(next.value, rule.worse) <==> Beyond(rule, t, next.value);
    }
  }

  /** A judgement of the series used no measured spread exactly when a run that was judged has none. */
  lemma {:induction false} ProvisionalExactly<R(!new)>(rule: Rule, series: seq<Run<R>>)
    requires rule.Loads()
    ensures Provisional(rule, series) <==>
            exists i :: rule.minBaseline <= i < |series| && series[i].measured == None
  {
    if series != [] {
      var n := |series| - 1;
      ProvisionalExactly(rule, series[..n]);
      JudgesByBaseline<R>(rule);
      UnknownIffShort(rule.window, JudgeOf(rule), series, rule.minBaseline);
      assert forall i :: 0 <= i < n ==> series[..n][i] == series[i];
      if i :| rule.minBaseline <= i < |series| && series[i].measured == None {
        assert i < n ==> series[..n][i].measured == None;
      }
    }
  }

  /** The last good run of a streak that begins at `first`, the verdict of the run before it on its own
      night being `night`: that run if it was within its own baseline then, or else if it is within the
      limit of the run reported. */
  predicate IsGood<R(==)>(rule: Rule, series: seq<Run<R>>, first: nat, night: Verdict, t: Threshold,
      good: Option<(Run<R>, Basis)>)
    requires first <= |series|
  {
    if first == 0 then good == None
    else
      var run := series[first - 1];
      if night == Within then good == Some((run, OwnBaseline))
      else if Beyond(rule, t, run.value) then good == None
      else good == Some((run, if first - 1 < rule.minBaseline then LimitUnjudged else LimitAccepted))
  }

  /** The verdict, on its own night, of the run before the `first`. */
  function NightOf<R>(rule: Rule, series: seq<Run<R>>, first: nat): Verdict
    requires rule.Loads() && first <= |series|
  {
    if first == 0 then Unjudged else OwnNight(rule.window, JudgeOf(rule), series, first - 1)
  }

  /** The verdict of the run before a streak is that of its own night, or was accepted since. */
  lemma NightBefore<R(!new)>(rule: Rule, series: seq<Run<R>>, at: nat)
    requires rule.Loads() && at < |series| && Replay(rule.window, JudgeOf(rule), series)[at] != Flagged
    ensures var verdict := Replay(rule.window, JudgeOf(rule), series)[at];
            && (verdict == Within <==> OwnNight(rule.window, JudgeOf(rule), series, at) == Within)
            && (verdict == Unjudged <==> at < rule.minBaseline)
  {
    var judge := JudgeOf<R>(rule);
    VerdictsStand(rule.window, judge, series, at);
    JudgesByBaseline<R>(rule);
    UnknownIffShort(rule.window, judge, series[..at + 1], rule.minBaseline);
  }

  lemma GoodFrom<R>(rule: Rule, series: seq<Run<R>>, v: Verdicts, first: nat, night: Verdict, t: Threshold)
    requires |v| == |series| && first == |series| - Streak(v)
    requires first > 0 ==>
               (v[first - 1] == Within <==> night == Within)
                 && (v[first - 1] == Unjudged <==> first - 1 < rule.minBaseline)
    ensures IsGood(rule, series, first, night, t, GoodRun(rule, series, v, t))
  {
  }

  lemma OutcomeParts<R>(rule: Rule, series: seq<Run<R>>, v: Verdicts, limit: Option<Threshold>, usable: nat,
      provisional: bool)
    requires |v| == |series| > 0
    ensures var o := OutcomeWith(rule, series, v, limit, usable, provisional);
            && (o.Unknown? ==> o.usable == usable)
            && (!o.Unknown? ==> limit == Some(o.limit) && o.provisional == provisional)
            && (o.Regressed? ==>
                  && o.streak == Streak(v) >= 1 && o.firstBad == series[|series| - o.streak]
                  && o.good == GoodRun(rule, series, v, o.limit))
  {
  }

  lemma OutcomeFrom<R>(rule: Rule, history: seq<Run<R>>, current: Run<R>)
    requires rule.Loads()
    ensures var series, o, judge := history + [current], OutcomeOf(rule, history + [current]), JudgeOf(rule);
            var settled := Settled(rule.window, judge, history);
            && (o.Unknown? ==> o.usable == |Usable(history, settled)|)
            && (!o.Unknown? ==>
                  && LimitOf(rule, Baseline(rule.window, history, settled), current) == Some(o.limit)
                  && o.provisional == Provisional(rule, series))
            && (o.Regressed? ==>
                  && 1 <= o.streak == Streak(Replay(rule.window, judge, series))
                  && o.firstBad == series[|series| - o.streak]
                  && o.good == GoodRun(rule, series, Replay(rule.window, judge, series), o.limit))
  {
    var series, judge := history + [current], JudgeOf(rule);
    assert series[..|history|] == history;
    OutcomeParts(rule, series, Replay(rule.window, judge, series),
                 LimitOf(rule, LastBaseline(rule.window, judge, series), series[|history|]),
                 |Usable(history, Settled(rule.window, judge, history))|, Provisional(rule, series));
  }

  /** The limit of a report is that of its baseline, and it tells whether the run regressed. */
  lemma OutcomeLimit<R(!new)>(rule: Rule, history: seq<Run<R>>, current: Run<R>)
    requires rule.Loads()
    ensures var o := OutcomeOf(rule, history + [current]);
            var base := Baseline(rule.window, history, Settled(rule.window, JudgeOf(rule), history));
            && (o.Unknown? <==> |history| < rule.minBaseline)
            && (!o.Unknown? ==>
                  && |base| >= rule.minBaseline && IsLimit(rule, Values(base), current.measured, o.limit)
                  && (o.Regressed? <==> Beyond(rule, o.limit, current.value)))
  {
    UnknownMeansShort(rule, history, current);
    NextOutcome(rule, history, current);
    var base := Baseline(rule.window, history, Settled(rule.window, JudgeOf(rule), history));
    if |base| >= rule.minBaseline {
      LimitExactly(rule, Values(base), current.measured);
    }
  }

  /** What else is reported: the usable runs when they are too few; and otherwise whether a judgement fell
      back on the provisional spread. */
  lemma OutcomeExactly<R(!new)>(rule: Rule, history: seq<Run<R>>, current: Run<R>)
    requires rule.Loads()
    ensures var series, o := history + [current], OutcomeOf(rule, history + [current]);
            && (o.Unknown? ==> o.usable == |Usable(history, Settled(rule.window, JudgeOf(rule), history))|)
            && (!o.Unknown? ==>
                  (o.provisional <==> exists i :: rule.minBaseline <= i < |series| && series[i].measured == None))
  {
    OutcomeFrom(rule, history, current);
    ProvisionalExactly(rule, history + [current]);
  }

  /** Of a regression, the run its streak began at, and the last good run. */
  lemma RegressedExactly<R(!new)>(rule: Rule, history: seq<Run<R>>, current: Run<R>)
    requires rule.Loads()
    ensures var series, o := history + [current], OutcomeOf(rule, history + [current]);
            o.Regressed? ==>
              && 1 <= o.streak <= |series| && o.firstBad == series[|series| - o.streak]
              && IsGood(rule, series, |series| - o.streak, NightOf(rule, series, |series| - o.streak), o.limit, o.good)
  {
    var series, o := history + [current], OutcomeOf(rule, history + [current]);
    OutcomeFrom(rule, history, current);
    if o.Regressed? {
      var v := Replay(rule.window, JudgeOf(rule), series);
      var first := |series| - o.streak;
      if first > 0 {
        NightBefore(rule, series, first - 1);
      }
      GoodFrom(rule, series, v, first, NightOf(rule, series, first), o.limit);
    }
  }
}
