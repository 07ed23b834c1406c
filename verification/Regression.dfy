/** scripts/prism_load_regress.py: the rule itself, over reals, and its replay in place. */
module Regression {
  import opened Common
  import opened Results
  import opened Sorting
  import opened Replays

  datatype Worse = Higher | Lower

  datatype Rule = Rule(window: nat, minBaseline: nat, k: real, worse: Worse, minRelative: real, minAbsolute: real) {
    /** What `load_config` accepts. */
    predicate Loads() {
      1 <= minBaseline <= window && k > 0.0 && minRelative >= 0.0 && minAbsolute >= 0.0
    }
  }

  /** A run of the series: its row, its number, and the measured spread of its own band. */
  datatype Run<R> = Run(row: R, value: real, measured: Option<real>)

  // ----- the threshold

  function Max(a: real, b: real): (r: real)
    ensures r >= a && r >= b && (r == a || r == b)
  {
    if a >= b then a else b
  }

  /** `statistics.median` */
  function Median(values: seq<real>): real
    requires values != []
  {
    var sorted := Sort((x: real, y: real) => x <= y, values);
    var n := |sorted|;
    if n % 2 == 1 then sorted[n / 2] else (sorted[n / 2 - 1] + sorted[n / 2]) / 2.0
  }

  function Deviations(values: seq<real>, from: real): (r: seq<real>)
    ensures |r| == |values|
  {
    seq(|values|, i requires 0 <= i < |values| => Abs(values[i] - from))
  }

  const MAD_SCALE := 1.4826

  datatype Threshold = Threshold(median: real, spread: real, allowed: real, n: nat, provisional: bool) {
    /** `Threshold.worse` */
    predicate IsWorse(value: real, worse: Worse) {
      if worse.Higher? then value > median + allowed else value < median - allowed
    }
  }

  /** The measured spread of the run's band, or else the scaled median deviation. */
  function SpreadOf(base: seq<real>, median: real, measured: Option<real>): real
    requires base != []
  {
    if measured.Some? then measured.value * Abs(median) else MAD_SCALE * Median(Deviations(base, median))
  }

  function AllowedOf(rule: Rule, spread: real, median: real): (allowed: real)
    ensures allowed >= rule.minAbsolute
  {
    Max(rule.k * spread, Max(rule.minRelative * Abs(median), rule.minAbsolute))
  }

  /** `threshold` */
  function ThresholdOf(rule: Rule, base: seq<real>, measured: Option<real>): (t: Threshold)
    requires base != []
    ensures rule.Loads() ==> t.allowed >= 0.0
    ensures t.n == |base| && t.median == Median(base)
  {
    var median := Median(base);
    var spread := SpreadOf(base, median, measured);
    Threshold(median, spread, AllowedOf(rule, spread, median), |base|, measured.None?)
  }

  function Values<R>(runs: seq<Run<R>>): (r: seq<real>)
    ensures |r| == |runs|
  {
    seq(|runs|, i requires 0 <= i < |runs| => runs[i].value)
  }

  function LimitOf<R>(rule: Rule, base: seq<Run<R>>, next: Run<R>): (limit: Option<Threshold>)
    requires rule.Loads()
    ensures limit.Some? <==> |base| >= rule.minBaseline
    ensures limit.Some? ==> limit.value.allowed >= 0.0 && limit.value.n == |base|
  {
    if |base| < rule.minBaseline then None else Some(ThresholdOf(rule, Values(base), next.measured))
  }

  function VerdictIn(limit: Option<Threshold>, value: real, worse: Worse): Verdict {
    match limit
    case None => Unjudged
    case Some(t) => if t.IsWorse(value, worse) then Flagged else Within
  }

  function VerdictOf<R>(rule: Rule, base: seq<Run<R>>, next: Run<R>): Verdict
    requires rule.Loads()
  {
    VerdictIn(LimitOf(rule, base, next), next.value, rule.worse)
  }

  function JudgeOf<R>(rule: Rule): Judge<Run<R>>
    requires rule.Loads()
  {
    (base, next) => VerdictOf(rule, base, next)
  }

  // ----- the outcome, from the whole replay

  datatype Basis = OwnBaseline | LimitUnjudged | LimitAccepted

  datatype Outcome<R> =
    | Unknown(usable: nat)
    | Usual(limit: Threshold, provisional: bool)
    | Regressed(limit: Threshold, good: Option<(Run<R>, Basis)>, firstBad: Run<R>, streak: nat, provisional: bool)

  /** A judgement of the series fell back to the provisional spread. */
  function Provisional<R>(rule: Rule, series: seq<Run<R>>): bool
    requires rule.Loads()
  {
    if series == [] then false
    else
      var n := |series| - 1;
      Provisional(rule, series[..n])
      || (|LastBaseline(rule.window, JudgeOf(rule), series)| >= rule.minBaseline && series[n].measured.None?)
  }

  /** The last good run: the one before the streak, if its own baseline or the present limit takes it. */
  function GoodRun<R>(rule: Rule, series: seq<Run<R>>, v: Verdicts, limit: Threshold): Option<(Run<R>, Basis)>
    requires |v| == |series|
  {
    var at := |series| - 1 - Streak(v);
    if at < 0 then None
    else if v[at] == Within then Some((series[at], OwnBaseline))
    else if limit.IsWorse(series[at].value, rule.worse) then None
    else Some((series[at], if v[at] == Unjudged then LimitUnjudged else LimitAccepted))
  }

  /** What the replay reports of its last run. */
  function OutcomeWith<R>(rule: Rule, series: seq<Run<R>>, v: Verdicts, limit: Option<Threshold>, usable: nat,
      provisional: bool): Outcome<R>
    requires |v| == |series| > 0
  {
    match limit
    case None => Unknown(usable)
    case Some(t) =>
      if v[|v| - 1] != Flagged then Usual(t, provisional)
      else Regressed(t, GoodRun(rule, series, v, t), series[|series| - Streak(v)], Streak(v), provisional)
  }

  function OutcomeOf<R>(rule: Rule, series: seq<Run<R>>): Outcome<R>
    requires rule.Loads() && series != []
  {
    var n, judge := |series| - 1, JudgeOf(rule);
    OutcomeWith(rule, series, Replay(rule.window, judge, series),
                LimitOf(rule, LastBaseline(rule.window, judge, series), series[n]),
                |Usable(series[..n], Settled(rule.window, judge, series[..n]))|,
                Provisional(rule, series))
  }

  // ----- `evaluate_number`, in place

  /** The two lists hold the verdicts of the first runs. */
  ghost predicate Holds(flagged: array<bool>, verdicts: array<Verdict>, v: Verdicts)
    reads flagged, verdicts
  {
    && |v| <= flagged.Length && |v| <= verdicts.Length
    && forall i :: 0 <= i < |v| ==> verdicts[i] == v[i] && flagged[i] == (v[i] == Flagged)
  }

  method CountStreak(flagged: array<bool>, verdicts: array<Verdict>, index: nat, ghost v: Verdicts)
      returns (streak: nat)
    requires Holds(flagged, verdicts, v) && |v| == index
    ensures streak == Streak(v)
  {
    streak := 0;
    while streak < index && flagged[index - 1 - streak]
      invariant streak <= index
      invariant forall i :: index - streak <= i < index ==> v[i] == Flagged
    {
      streak := streak + 1;
    }
    StreakOf(v, streak);
  }

  method AcceptStreak(flagged: array<bool>, verdicts: array<Verdict>, index: nat, window: nat, ghost v: Verdicts)
    requires Holds(flagged, verdicts, v) && |v| == index
    modifies flagged, verdicts
    ensures Holds(flagged, verdicts, Accept(window, v))
    ensures forall i :: index <= i < flagged.Length ==> flagged[i] == old(flagged[i])
    ensures forall i :: index <= i < verdicts.Length ==> verdicts[i] == old(verdicts[i])
  {
    var streak := CountStreak(flagged, verdicts, index, v);
    if streak >= window {
      for accepted := index - streak to index
        invariant forall i :: 0 <= i < index - streak ==> flagged[i] == (v[i] == Flagged) && verdicts[i] == v[i]
        invariant forall i :: index - streak <= i < accepted ==> !flagged[i] && verdicts[i] == Accepted
        invariant forall i :: index <= i < flagged.Length ==> flagged[i] == old(flagged[i])
        invariant forall i :: index <= i < verdicts.Length ==> verdicts[i] == old(verdicts[i])
      {
        flagged[accepted] := false;
        verdicts[accepted] := Accepted;
      }
    }
  }

  method Collect<R>(series: seq<Run<R>>, flagged: array<bool>, verdicts: array<Verdict>, index: nat, ghost v: Verdicts)
      returns (usable: seq<Run<R>>)
    requires Holds(flagged, verdicts, v) && |v| == index <= |series|
    ensures usable == Usable(series[..index], v)
  {
    usable := [];
    for j := 0 to index
      invariant usable == Usable(series[..j], v[..j])
    {
      assert series[..j + 1][..j] == series[..j] && v[..j + 1][..j] == v[..j];
      if !flagged[j] {
        usable := usable + [series[j]];
      }
    }
    assert v[..index] == v;
  }

  /** One pass of the replay loop: `v` is what the earlier passes left. */
  method JudgeNext<R>(rule: Rule, series: seq<Run<R>>, flagged: array<bool>, verdicts: array<Verdict>, index: nat,
      ghost v: Verdicts)
      returns (limit: Option<Threshold>, usable: nat)
    requires rule.Loads() && index < |series| == flagged.Length == verdicts.Length
    requires Holds(flagged, verdicts, v) && |v| == index
    requires forall i :: index <= i < |series| ==> !flagged[i] && verdicts[i] == Unjudged
    modifies flagged, verdicts
    ensures usable == |Usable(series[..index], Accept(rule.window, v))|
    ensures limit == LimitOf(rule, Baseline(rule.window, series[..index], Accept(rule.window, v)), series[index])
    ensures Holds(flagged, verdicts, Accept(rule.window, v) + [VerdictIn(limit, series[index].value, rule.worse)])
    ensures forall i :: index < i < |series| ==> !flagged[i] && verdicts[i] == Unjudged
  {
    AcceptStreak(flagged, verdicts, index, rule.window, v);
    var earlier := Collect(series, flagged, verdicts, index, Accept(rule.window, v));
    var base := Newest(rule.window, earlier);
    limit, usable := LimitOf(rule, base, series[index]), |earlier|;
    if limit.Some? {
      flagged[index] := limit.value.IsWorse(series[index].value, rule.worse);
      verdicts[index] := if flagged[index] then Flagged else Within;
    }
  }

  /** The rule's verdict on one number of one run. */
  method EvaluateNumber<R>(rule: Rule, history: seq<Run<R>>, current: Run<R>) returns (outcome: Outcome<R>)
    requires rule.Loads()
    ensures outcome == OutcomeOf(rule, history + [current])
  {
    var series := history + [current];
    var flagged, verdicts := new bool[|series|](_ => false), new Verdict[|series|](_ => Unjudged);
    var provisional := false;
    var limit: Option<Threshold> := None;
    var usable := 0;
    ghost var judge := JudgeOf<R>(rule);
    for index := 0 to |series|
      invariant Holds(flagged, verdicts, Replay(rule.window, judge, series[..index]))
      invariant forall i :: index <= i < |series| ==> !flagged[i] && verdicts[i] == Unjudged
      invariant provisional == Provisional(rule, series[..index])
      invariant index > 0 ==> Judged(rule, series[..index], limit, usable)
    {
      ghost var v := Replay(rule.window, judge, series[..index]);
      limit, usable := JudgeNext(rule, series, flagged, verdicts, index, v);
      provisional := provisional || (limit.Some? && series[index].measured.None?);
      NextJudged(rule, series, index, limit, usable);
    }
    assert series[..|series|] == series;
    outcome := Report(rule, series, flagged, verdicts, limit, usable, provisional, Replay(rule.window, judge, series));
  }

  /** The limit and the count that the last run of `series` was judged with. */
  ghost predicate Judged<R>(rule: Rule, series: seq<Run<R>>, limit: Option<Threshold>, usable: nat)
    requires rule.Loads() && series != []
  {
    var n, judge := |series| - 1, JudgeOf(rule);
    && limit == LimitOf(rule, LastBaseline(rule.window, judge, series), series[n])
    && usable == |Usable(series[..n], Settled(rule.window, judge, series[..n]))|
  }

  lemma NextJudged<R>(rule: Rule, series: seq<Run<R>>, index: nat, limit: Option<Threshold>, usable: nat)
    requires rule.Loads() && index < |series|
    ensures var settled := Settled(rule.window, JudgeOf(rule), series[..index]);
            usable == |Usable(series[..index], settled)|
            && limit == LimitOf(rule, Baseline(rule.window, series[..index], settled), series[index]) ==>
              && Judged(rule, series[..index + 1], limit, usable)
              && Replay(rule.window, JudgeOf(rule), series[..index + 1]) == settled
                 + [VerdictIn(limit, series[index].value, rule.worse)]
              && Provisional(rule, series[..index + 1])
                 == (Provisional(rule, series[..index]) || (limit.Some? && series[index].measured.None?))
  {
    var next := series[..index + 1];
    assert next[..index] == series[..index] && next[index] == series[index];
    ReplayStep(rule.window, JudgeOf(rule), next, index);
  }

  /** What follows the loop. */
  method Report<R>(rule: Rule, series: seq<Run<R>>, flagged: array<bool>, verdicts: array<Verdict>,
      limit: Option<Threshold>, usable: nat, provisional: bool, ghost v: Verdicts)
      returns (outcome: Outcome<R>)
    requires |v| == |series| > 0 && Holds(flagged, verdicts, v)
    ensures outcome == OutcomeWith(rule, series, v, limit, usable, provisional)
  {
    var n := |series| - 1;
    if limit.None? {
      return Unknown(usable);
    }
    if !flagged[n] {
      return Usual(limit.value, provisional);
    }
    var streak := 1;
    while streak < |series| && flagged[n - streak]
      invariant 1 <= streak <= |series|
      invariant forall i :: |series| - streak <= i < |series| ==> v[i] == Flagged
    {
      streak := streak + 1;
    }
    StreakOf(v, streak);
    var good: Option<(Run<R>, Basis)> := None;
    if streak < |series| {
      var at := n - streak;
      if verdicts[at] == Within {
        good := Some((series[at], OwnBaseline));
      } else if !limit.value.IsWorse(series[at].value, rule.worse) {
        good := Some((series[at], if verdicts[at] == Unjudged then LimitUnjudged else LimitAccepted));
      }
    }
    outcome := Regressed(limit.value, good, series[|series| - streak], streak, provisional);
  }

  // ----- what an outcome means

  lemma JudgesByBaseline<R(!new)>(rule: Rule)
    requires rule.Loads()
    ensures Judges(JudgeOf<R>(rule), rule.minBaseline)
  {
  }

  /** The status is `unknown` exactly when fewer earlier runs exist than the rule needs. */
  lemma UnknownMeansShort<R(!new)>(rule: Rule, history: seq<Run<R>>, current: Run<R>)
    requires rule.Loads()
    ensures OutcomeOf(rule, history + [current]).Unknown? <==> |history| < rule.minBaseline
  {
    JudgesByBaseline<R>(rule);
    UnknownIffShort(rule.window, JudgeOf(rule), history + [current], rule.minBaseline);
  }

  /** A reported streak is at most a window long, begins at the reported first bad run, and every
      run in it was flagged on its own night. */
  lemma ReportedStreak<R(!new)>(rule: Rule, series: seq<Run<R>>)
    requires rule.Loads() && series != []
    ensures var o := OutcomeOf(rule, series);
            o.Regressed? ==>
            && 1 <= o.streak <= rule.window && o.streak <= |series|
            && o.firstBad == series[|series| - o.streak]
            && forall i :: |series| - o.streak <= i < |series| ==>
               OwnNight(rule.window, JudgeOf(rule), series, i) == Flagged
  {
    var judge := JudgeOf<R>(rule);
    StreakBounded(rule.window, judge, series);
    forall i | |series| - Streak(Replay(rule.window, judge, series)) <= i < |series|
      ensures OwnNight(rule.window, judge, series, i) == Flagged
    {
      StreakFlagged(rule.window, judge, series, i);
    }
  }

  lemma NextOutcome<R>(rule: Rule, history: seq<Run<R>>, current: Run<R>)
    requires rule.Loads()
    ensures var baseline := Baseline(rule.window, history, Settled(rule.window, JudgeOf(rule), history));
            var limit := LimitOf(rule, baseline, current);
            var o := OutcomeOf(rule, history + [current]);
            if limit.None? then o.Unknown?
            else
              !o.Unknown? && o.limit == limit.value
              && (o.Regressed? <==> limit.value.IsWorse(current.value, rule.worse))
  {
    var series := history + [current];
    assert series[..|history|] == history;
    ReplayStep(rule.window, JudgeOf(rule), series, |history|);
  }

  lemma JudgedAgainst<R>(rule: Rule, history: seq<Run<R>>, current: Run<R>, base: seq<Run<R>>)
    requires rule.Loads() && |base| >= rule.minBaseline
    ensures var o := OutcomeOf(rule, history + [current]);
            base == Baseline(rule.window, history, Settled(rule.window, JudgeOf(rule), history)) ==>
            && !o.Unknown? && Some(o.limit) == LimitOf(rule, base, current)
            && (current.value == o.limit.median ==> o.Usual?)
  {
    NextOutcome(rule, history, current);
    AtMedian(LimitOf(rule, base, current).value, rule.worse);
  }

  /** Once a window of runs has been worse, the next run is judged against exactly those runs, so a
      run at their median is not reported. */
  lemma {:induction false} NewLevelAccepted<R>(rule: Rule, history: seq<Run<R>>, current: Run<R>)
    requires rule.Loads()
    ensures var o := OutcomeOf(rule, history + [current]);
            Streak(Replay(rule.window, JudgeOf(rule), history)) >= rule.window ==>
            && |history| >= rule.window
            && !o.Unknown? && Some(o.limit) == LimitOf(rule, history[|history| - rule.window..], current)
            && (current.value == o.limit.median ==> o.Usual?)
  {
    if Streak(Replay(rule.window, JudgeOf(rule), history)) >= rule.window {
      StreakBecomesBaseline(rule.window, JudgeOf(rule), history);
      var level := history[|history| - rule.window..];
      JudgedAgainst(rule, history, current, level);
    }
  }

  lemma AtMedian(limit: Threshold, worse: Worse)
    requires limit.allowed >= 0.0
    ensures !limit.IsWorse(limit.median, worse)
  {
  }

  /** A run reported as worse would be reported had it been worse still. */
  lemma WorseStillReported<R>(rule: Rule, history: seq<Run<R>>, current: Run<R>, value: real)
    requires rule.Loads()
    requires if rule.worse.Higher? then value >= current.value else value <= current.value
    ensures OutcomeOf(rule, history + [current]).Regressed? ==>
            OutcomeOf(rule, history + [current.(value := value)]).Regressed?
  {
    NextOutcome(rule, history, current);
    NextOutcome(rule, history, current.(value := value));
  }
}
