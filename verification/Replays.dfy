/** scripts/prism_load_regress.py, the replay: each run is judged against a baseline that earlier
    verdicts decided. `judge` gives the verdict of a run against a baseline. */
module Replays {
  import opened Common

  datatype Verdict = Unjudged | Within | Flagged | Accepted

  /** The verdicts of the runs replayed so far. A run is left out of baselines while `Flagged`. */
  type Verdicts = seq<Verdict>

  type Judge<!R> = (seq<R>, R) -> Verdict

  /** How many flagged runs the series ends in. */
  function Streak(v: Verdicts): (n: nat)
    ensures n <= |v|
    ensures forall i :: |v| - n <= i < |v| ==> v[i] == Flagged
    ensures n < |v| ==> v[|v| - 1 - n] != Flagged
  {
    if v != [] && v[|v| - 1] == Flagged then 1 + Streak(v[..|v| - 1]) else 0
  }

  /** A streak as long as the window is accepted as the new level. */
  function Accept(window: nat, v: Verdicts): (r: Verdicts)
    ensures |r| == |v|
  {
    var n := Streak(v);
    if n >= window then v[..|v| - n] + seq(n, _ => Accepted) else v
  }

  /** The runs no baseline leaves out, oldest first. */
  function Usable<R>(runs: seq<R>, v: Verdicts): (r: seq<R>)
    requires |v| == |runs|
    ensures |r| <= |v|
  {
    if v == [] then []
    else
      var n := |v| - 1;
      Usable(runs[..n], v[..n]) + if v[n] == Flagged then [] else [runs[n]]
  }

  function Newest<T>(n: nat, s: seq<T>): (r: seq<T>)
    ensures |r| == if |s| <= n then |s| else n
  {
    if |s| <= n then s else s[|s| - n..]
  }

  /** The baseline of the run that follows `runs`. */
  function Baseline<R>(window: nat, runs: seq<R>, settled: Verdicts): seq<R>
    requires |settled| == |runs|
  {
    Newest(window, Usable(runs, settled))
  }

  /** Every run's verdict, judged oldest first. */
  function Replay<R>(window: nat, judge: Judge<R>, series: seq<R>): (v: Verdicts)
    ensures |v| == |series|
    decreases |series|, 0
  {
    if series == [] then []
    else
      var n := |series| - 1;
      var settled := Settled(window, judge, series[..n]);
      settled + [judge(Baseline(window, series[..n], settled), series[n])]
  }

  /** The verdicts the next run finds. */
  function Settled<R>(window: nat, judge: Judge<R>, series: seq<R>): (v: Verdicts)
    ensures |v| == |series|
    decreases |series|, 1
  {
    Accept(window, Replay(window, judge, series))
  }

  /** The baseline the last run is judged against on its own night. */
  function LastBaseline<R>(window: nat, judge: Judge<R>, series: seq<R>): seq<R>
    requires series != []
  {
    var n := |series| - 1;
    Baseline(window, series[..n], Settled(window, judge, series[..n]))
  }

  /** A judge leaves a run unjudged exactly when the baseline is too short. */
  ghost predicate Judges<R(!new)>(judge: Judge<R>, minBaseline: nat) {
    forall base, next ::
      && judge(base, next) != Accepted
      && (judge(base, next) == Unjudged <==> |base| < minBaseline)
  }

  // ----- what the replay keeps

  lemma ReplayStep<R>(window: nat, judge: Judge<R>, series: seq<R>, n: nat)
    requires |series| == n + 1
    ensures Replay(window, judge, series)[..n] == Settled(window, judge, series[..n])
    ensures Replay(window, judge, series)[n] == judge(LastBaseline(window, judge, series), series[n])
  {
  }

  lemma {:induction false} StreakOf(v: Verdicts, n: nat)
    requires n <= |v| && forall i :: |v| - n <= i < |v| ==> v[i] == Flagged
    requires n < |v| ==> v[|v| - 1 - n] != Flagged
    ensures Streak(v) == n
  {
    if n > 0 {
      StreakOf(v[..|v| - 1], n - 1);
    }
  }

  lemma {:induction false} StreakAtLeast(v: Verdicts, from: nat)
    requires from <= |v| && forall i :: from <= i < |v| ==> v[i] == Flagged
    ensures Streak(v) >= |v| - from
  {
    if from < |v| {
      StreakAtLeast(v[..|v| - 1], from);
    }
  }

  lemma AcceptSettles(window: nat, v: Verdicts)
    requires window >= 1
    ensures Streak(Accept(window, v)) < window
    ensures forall i :: 0 <= i < |v| ==>
            Accept(window, v)[i] == v[i] || (v[i] == Flagged && Accept(window, v)[i] == Accepted)
    ensures forall i :: 0 <= i < |v| && Accept(window, v)[i] != v[i] ==> |v| - Streak(v) <= i && Streak(v) >= window
  {
    if Streak(v) >= window {
      AcceptedTail(v, Streak(v));
      StreakOf(Accept(window, v), 0);
    }
  }

  lemma AcceptedTail(v: Verdicts, n: nat)
    requires n <= |v| && forall i :: |v| - n <= i < |v| ==> v[i] == Flagged
    ensures var r := v[..|v| - n] + seq(n, _ => Accepted);
            && |r| == |v| && (n > 0 ==> r[|v| - 1] == Accepted)
            && forall i :: 0 <= i < |v| ==>
                 r[i] == v[i] || (|v| - n <= i && v[i] == Flagged && r[i] == Accepted)
  {
  }

  /** Every streak, and so every streak a verdict reports, is at most a window long. */
  lemma StreakBounded<R>(window: nat, judge: Judge<R>, series: seq<R>)
    requires window >= 1
    ensures Streak(Replay(window, judge, series)) <= window
  {
    if series != [] {
      var n := |series| - 1;
      AcceptSettles(window, Replay(window, judge, series[..n]));
      ReplayStep(window, judge, series, n);
    }
  }

  lemma {:induction false} UsableGrows<R>(runs: seq<R>, v: Verdicts, w: Verdicts)
    requires |v| == |w| == |runs| && forall i :: 0 <= i < |v| && v[i] != Flagged ==> w[i] != Flagged
    ensures |Usable(runs, v)| <= |Usable(runs, w)|
  {
    if v != [] {
      var n := |v| - 1;
      UsableGrows(runs[..n], v[..n], w[..n]);
    }
  }

  lemma {:induction false} EnoughSettled<R(!new)>(window: nat, judge: Judge<R>, series: seq<R>, minBaseline: nat)
    requires 1 <= minBaseline <= window && Judges(judge, minBaseline)
    ensures |Usable(series, Settled(window, judge, series))| >= Least(|series|, minBaseline)
  {
    var v := Replay(window, judge, series);
    if series != [] {
      var n := |series| - 1;
      EnoughSettled(window, judge, series[..n], minBaseline);
      ReplayStep(window, judge, series, n);
    }
    AcceptSettles(window, v);
    UsableGrows(series, v, Accept(window, v));
  }

  /** A run goes unjudged exactly when fewer than `min_baseline` runs precede it, whatever was
      flagged or accepted in between. */
  lemma UnknownIffShort<R(!new)>(window: nat, judge: Judge<R>, series: seq<R>, minBaseline: nat)
    requires 1 <= minBaseline <= window && Judges(judge, minBaseline) && series != []
    ensures |LastBaseline(window, judge, series)| < minBaseline <==> |series| - 1 < minBaseline
    ensures Replay(window, judge, series)[|series| - 1] == Unjudged <==> |series| - 1 < minBaseline
  {
    EnoughSettled(window, judge, series[..|series| - 1], minBaseline);
    ReplayStep(window, judge, series, |series| - 1);
  }

  /** The verdict a run got on its own night. */
  function OwnNight<R>(window: nat, judge: Judge<R>, series: seq<R>, i: nat): Verdict
    requires i < |series|
  {
    Replay(window, judge, series[..i + 1])[i]
  }

  /** From `a` on, a window of runs was flagged, each on its own night. */
  ghost predicate FlaggedWindow<R>(window: nat, judge: Judge<R>, series: seq<R>, a: int) {
    0 <= a && a + window <= |series| && forall i :: a <= i < a + window ==>
      OwnNight(window, judge, series, i) == Flagged
  }

  lemma SameNight<R>(window: nat, judge: Judge<R>, series: seq<R>, n: nat, i: nat)
    requires i < n <= |series|
    ensures OwnNight(window, judge, series[..n], i) == OwnNight(window, judge, series, i)
  {
    assert series[..n][..i + 1] == series[..i + 1];
  }

  lemma EarlierVerdict<R>(window: nat, judge: Judge<R>, series: seq<R>, n: nat, i: nat)
    requires window >= 1 && i < n && |series| == n + 1
    ensures var earlier, now := Replay(window, judge, series[..n])[i], Replay(window, judge, series)[i];
            now == earlier || (earlier == Flagged && now == Accepted
                               && n - Streak(Replay(window, judge, series[..n])) <= i
                               && Streak(Replay(window, judge, series[..n])) >= window)
  {
    ReplayStep(window, judge, series, n);
    AcceptSettles(window, Replay(window, judge, series[..n]));
    assert Replay(window, judge, series)[..n][i] == Replay(window, judge, series)[i];
  }

  /** The streak was there before its last run. */
  lemma EarlierStreak<R>(window: nat, judge: Judge<R>, series: seq<R>, n: nat, i: nat)
    requires window >= 1 && |series| == n + 1 && |series| - Streak(Replay(window, judge, series)) <= i < n
    ensures n - Streak(Replay(window, judge, series[..n])) <= i
  {
    forall j | i <= j < n
      ensures Replay(window, judge, series[..n])[j] == Flagged
    {
      EarlierVerdict(window, judge, series, n, j);
    }
    StreakAtLeast(Replay(window, judge, series[..n]), i);
  }

  /** The runs of the present streak were flagged on their own nights. */
  lemma {:induction false} StreakFlagged<R>(window: nat, judge: Judge<R>, series: seq<R>, i: nat)
    requires window >= 1 && |series| - Streak(Replay(window, judge, series)) <= i < |series|
    ensures OwnNight(window, judge, series, i) == Flagged
    decreases |series|
  {
    var n := |series| - 1;
    if i == n {
      assert series[..i + 1] == series;
    } else {
      EarlierStreak(window, judge, series, n, i);
      StreakFlagged(window, judge, series[..n], i);
      SameNight(window, judge, series, n, i);
    }
  }

  /** The streak about to be accepted is a window of runs flagged on their own nights. */
  lemma StreakIsWindow<R>(window: nat, judge: Judge<R>, series: seq<R>)
    requires window >= 1 && Streak(Replay(window, judge, series)) >= window
    ensures Streak(Replay(window, judge, series)) == window
    ensures FlaggedWindow(window, judge, series, |series| - window)
  {
    StreakBounded(window, judge, series);
    forall i | |series| - window <= i < |series|
      ensures OwnNight(window, judge, series, i) == Flagged
    {
      StreakFlagged(window, judge, series, i);
    }
  }

  lemma LongerWindow<R>(window: nat, judge: Judge<R>, series: seq<R>, n: nat, a: int)
    requires n <= |series| && FlaggedWindow(window, judge, series[..n], a)
    ensures FlaggedWindow(window, judge, series, a)
  {
    forall i | a <= i < a + window
      ensures OwnNight(window, judge, series, i) == Flagged
    {
      SameNight(window, judge, series, n, i);
    }
  }

  /** One more run changes an earlier verdict only by accepting a window of flagged runs. */
  lemma VerdictStep<R>(window: nat, judge: Judge<R>, series: seq<R>, n: nat, i: nat)
    requires window >= 1 && i < n && |series| == n + 1
    ensures var earlier, now := Replay(window, judge, series[..n])[i], Replay(window, judge, series)[i];
            now == earlier
            || (earlier == Flagged && now == Accepted && n - window <= i
                && FlaggedWindow(window, judge, series, n - window))
  {
    EarlierVerdict(window, judge, series, n, i);
    if Replay(window, judge, series)[i] != Replay(window, judge, series[..n])[i] {
      StreakIsWindow(window, judge, series[..n]);
      LongerWindow(window, judge, series, n, n - window);
    }
  }

  ghost predicate InFlaggedWindow<R>(window: nat, judge: Judge<R>, series: seq<R>, i: nat) {
    exists a :: a <= i < a + window && FlaggedWindow(window, judge, series, a)
  }

  lemma StillInWindow<R>(window: nat, judge: Judge<R>, series: seq<R>, n: nat, i: nat)
    requires n <= |series| && InFlaggedWindow(window, judge, series[..n], i)
    ensures InFlaggedWindow(window, judge, series, i)
  {
    var a :| a <= i < a + window && FlaggedWindow(window, judge, series[..n], a);
    LongerWindow(window, judge, series, n, a);
  }

  /** Later runs never change how a run was judged, except that a flagged run may be accepted; and
      then it stands in a window of runs each flagged on its own night. */
  lemma {:induction false} VerdictsStand<R>(window: nat, judge: Judge<R>, series: seq<R>, i: nat)
    requires window >= 1 && i < |series|
    ensures var own, now := OwnNight(window, judge, series, i), Replay(window, judge, series)[i];
            now == own || (own == Flagged && now == Accepted && InFlaggedWindow(window, judge, series, i))
    decreases |series|
  {
    var n := |series| - 1;
    if i == n {
      assert series[..i + 1] == series;
    } else {
      VerdictsStand(window, judge, series[..n], i);
      SameNight(window, judge, series, n, i);
      VerdictStep(window, judge, series, n, i);
      if InFlaggedWindow(window, judge, series[..n], i) {
        StillInWindow(window, judge, series, n, i);
      }
    }
  }

  /** A run judged worse stays out of every later baseline until a window of runs, itself among
      them, has been judged worse. */
  lemma LeftOutUntilAccepted<R>(window: nat, judge: Judge<R>, series: seq<R>, i: nat)
    requires window >= 1 && i < |series| && OwnNight(window, judge, series, i) == Flagged
    requires !InFlaggedWindow(window, judge, series, i)
    ensures Settled(window, judge, series)[i] == Flagged
  {
    VerdictsStand(window, judge, series, i);
    AcceptSettles(window, Replay(window, judge, series));
    if Streak(Replay(window, judge, series)) >= window {
      StreakIsWindow(window, judge, series);
    }
  }

  // ----- acceptance

  lemma {:induction false} UsableTail<R>(runs: seq<R>, v: Verdicts, n: nat)
    requires |v| == |runs| && n <= |v| && forall i :: |v| - n <= i < |v| ==> v[i] != Flagged
    ensures Usable(runs, v) == Usable(runs[..|v| - n], v[..|v| - n]) + runs[|v| - n..]
  {
    if n == 0 {
      assert runs[..|v|] == runs && v[..|v|] == v;
    } else {
      var m := |v| - 1;
      UsableTail(runs[..m], v[..m], n - 1);
      assert runs[..m][..m - (n - 1)] == runs[..|v| - n] && v[..m][..m - (n - 1)] == v[..|v| - n];
      LastSlice(runs, |v| - n, m);
    }
  }

  lemma LastSlice<T>(s: seq<T>, from: nat, m: nat)
    requires from <= m && |s| == m + 1
    ensures s[..m][from..] + [s[m]] == s[from..]
  {
  }

  lemma AcceptedWindow(window: nat, v: Verdicts)
    requires Streak(v) >= window
    ensures |Accept(window, v)| == |v| >= window
    ensures forall i :: |v| - window <= i < |v| ==> Accept(window, v)[i] == Accepted
  {
  }

  lemma BaselineIsTail<R>(window: nat, runs: seq<R>, v: Verdicts)
    requires |v| == |runs| >= window && forall i :: |v| - window <= i < |v| ==> v[i] == Accepted
    ensures Baseline(window, runs, v) == runs[|runs| - window..]
  {
    UsableTail(runs, v, window);
    LastPart(Usable(runs[..|v| - window], v[..|v| - window]), runs[|v| - window..]);
  }

  /** The baseline right after a streak of a window is exactly that streak. */
  lemma StreakBecomesBaseline<R>(window: nat, judge: Judge<R>, series: seq<R>)
    requires window >= 1 && Streak(Replay(window, judge, series)) >= window
    ensures |series| >= window
    ensures Baseline(window, series, Settled(window, judge, series)) == series[|series| - window..]
  {
    AcceptedWindow(window, Replay(window, judge, series));
    BaselineIsTail(window, series, Settled(window, judge, series));
  }

  lemma LastPart<T>(a: seq<T>, b: seq<T>)
    ensures Newest(|b|, a + b) == b
  {
  }

  // ----- the first bad run

  /** The run a reported streak begins at. */
  function FirstBad<R>(window: nat, judge: Judge<R>, series: seq<R>): (at: int)
    requires Streak(Replay(window, judge, series)) > 0
    ensures 0 <= at < |series|
  {
    |series| - Streak(Replay(window, judge, series))
  }

  lemma NextStreak<R>(window: nat, judge: Judge<R>, series: seq<R>, next: R)
    requires window >= 1 && Streak(Replay(window, judge, series + [next])) > 0
    ensures var before := Streak(Replay(window, judge, series));
            Streak(Replay(window, judge, series + [next])) == if before < window then before + 1 else 1
  {
    var longer, n := series + [next], |series|;
    assert longer[..n] == series;
    ReplayStep(window, judge, longer, n);
    SettledStreak(window, Replay(window, judge, series));
  }

  /** While a streak is shorter than the window, another flagged run leaves its first run the same;
      once it is a window long, the next flagged run begins a streak of its own. The run before the
      first was not flagged. */
  lemma FirstBadStays<R>(window: nat, judge: Judge<R>, series: seq<R>, next: R)
    requires window >= 1
    requires Streak(Replay(window, judge, series)) > 0 && Streak(Replay(window, judge, series + [next])) > 0
    ensures var first := FirstBad(window, judge, series);
            && FirstBad(window, judge, series + [next]) == (if |series| - first < window then first else |series|)
            && (first > 0 ==> Replay(window, judge, series)[first - 1] != Flagged)
  {
    NextStreak(window, judge, series, next);
  }

  lemma SettledStreak(window: nat, v: Verdicts)
    requires window >= 1
    ensures Streak(Accept(window, v)) == if Streak(v) >= window then 0 else Streak(v)
  {
    if Streak(v) >= window {
      StreakOf(Accept(window, v), 0);
    }
  }
}
