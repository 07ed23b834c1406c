/** lab/auxpow/vardiff.py and the coordinator's targets, over reals. */
module Vardiff {
  import opened Common
  import opened Results

  datatype Config = Config(enabled: bool, shareInterval: real, minimum: real, maximum: real, stepUp: real,
      stepDown: real, alpha: real, initialEnabled: bool, initialStepUp: real) {
    /** What `__post_init__` accepts. */
    predicate Accepted() {
      && shareInterval > 0.0 && 0.0 < minimum <= maximum
      && stepUp >= 1.0 && stepDown >= 1.0 && 0.0 < alpha <= 1.0 && initialStepUp >= stepUp
    }

    /** The largest step up of one retarget. */
    function Up(initial: bool): real {
      if initial && initialEnabled then initialStepUp else stepUp
    }
  }

  datatype Error = BadDifficulty | BadElapsed | BadShares | BadEstimate | BadObserved

  function Clamp(value: real, lowest: real, highest: real): real {
    var raised := if value >= lowest then value else lowest;
    if raised <= highest then raised else highest
  }

  /** `observed_difficulty`: the difficulty that would have given one share an interval. */
  function Observed(accepted: real, elapsed: real, interval: real): Result<Option<real>, Error> {
    if accepted < 0.0 then Err(BadDifficulty)
    else if elapsed <= 0.0 then Err(BadElapsed)
    else if accepted == 0.0 then Ok(None)
    else Ok(Some(accepted * interval / elapsed))
  }

  /** `smooth_difficulty_estimate` */
  function Smooth(observed: real, previous: Option<real>, config: Config): Result<real, Error> {
    if observed <= 0.0 then Err(BadObserved)
    else if previous.None? then Ok(Clamp(observed, config.minimum, config.maximum))
    else if previous.value <= 0.0 then Err(BadEstimate)
    else Ok(Clamp(observed * config.alpha + previous.value * (1.0 - config.alpha), config.minimum, config.maximum))
  }

  /** The difficulty a window argues for, before any bound. */
  function Wanted(current: real, shares: nat, elapsed: real, config: Config, accepted: Option<real>,
      estimate: Option<real>): Result<real, Error>
    requires config.Accepted() && current > 0.0 && elapsed > 0.0
  {
    if estimate.Some? then (if estimate.value <= 0.0 then Err(BadEstimate) else Ok(estimate.value))
    else if shares == 0 then Ok(current / config.stepDown)
    else
      var observed :- Observed(if accepted.Some? then accepted.value
                               else current * shares as real, elapsed, config.shareInterval);
      Ok(if observed.None? then current / config.stepDown else observed.value)
  }

  /** One bounded step from `start` towards `wanted`. */
  function Step(start: real, wanted: real, down: real, up: real, lowest: real, highest: real): real
    requires start > 0.0 && down > 0.0
  {
    Clamp(start * Clamp(wanted / start, 1.0 / down, up), lowest, highest)
  }

  /** `calculate_next_difficulty` */
  function NextDifficulty(current: real, shares: int, elapsed: real, config: Config, accepted: Option<real>,
      estimate: Option<real>, initial: bool): Result<real, Error>
    requires config.Accepted()
  {
    if current <= 0.0 then Err(BadDifficulty)
    else if shares < 0 then Err(BadShares)
    else if elapsed <= 0.0 then Err(BadElapsed)
    else
      var start := Clamp(current, config.minimum, config.maximum);
      var wanted :- Wanted(start, shares, elapsed, config, accepted, estimate);
      Ok(Step(start, wanted, config.stepDown, config.Up(initial), config.minimum, config.maximum))
  }

  // ----- the next difficulty

  lemma MulDiv(a: real, b: real)
    requires b > 0.0
    ensures b * (a / b) == a
  {
  }

  lemma Positive(a: real, b: real)
    requires a > 0.0 && b > 0.0
    ensures a * b > 0.0
  {
  }

  lemma NonNegative(a: real, b: real)
    requires a >= 0.0 && b >= 0.0
    ensures a * b >= 0.0
  {
  }

  lemma Scaled(a: real, b: real, c: real)
    requires c > 0.0
    ensures a <= b <==> c * a <= c * b
  {
    if a <= b {
      NonNegative(b - a, c);
    } else {
      Positive(a - b, c);
    }
  }

  /** Scaling a clamped ratio is clamping between the scaled bounds. */
  lemma ScaledClamp(start: real, ratio: real, wanted: real, low: real, high: real, bottom: real, top: real)
    requires start > 0.0 && start * ratio == wanted && start * low == bottom && start * high == top
    ensures start * Clamp(ratio, low, high) == Clamp(wanted, bottom, top)
  {
    Scaled(low, ratio, start);
    Scaled(low, high, start);
    Scaled(ratio, high, start);
  }

  lemma Divided(start: real, down: real, low: real, bottom: real)
    requires down > 0.0 && down * low == 1.0 && down * bottom == start
    ensures start * low == bottom
  {
    assert start * low == (down * bottom) * low == bottom * (down * low);
  }

  lemma DownUp(start: real, down: real, up: real, bottom: real, top: real)
    requires start > 0.0 && down >= 1.0 && up >= 1.0 && down * bottom == start && start * up == top
    ensures bottom <= start <= top
  {
    Scaled(1.0, up, start);
    if bottom > start {
      Scaled(1.0, down, bottom);
    }
  }

  /** A step is the wanted difficulty clamped between the step bounds, then into the lane. */
  lemma StepForm(start: real, wanted: real, down: real, up: real, lowest: real, highest: real, bottom: real, top: real)
    requires start > 0.0 && down > 0.0 && down * bottom == start && start * up == top
    ensures Step(start, wanted, down, up, lowest, highest) == Clamp(Clamp(wanted, bottom, top), lowest, highest)
  {
    var ratio, low := StepQuotients(start, wanted, down, up, lowest, highest);
    StepProduct(start, ratio, wanted, down, low, up, bottom, top);
  }

  lemma StepQuotients(start: real, wanted: real, down: real, up: real, lowest: real, highest: real)
      returns (ratio: real, low: real)
    requires start > 0.0 && down > 0.0
    ensures start * ratio == wanted && down * low == 1.0
    ensures Step(start, wanted, down, up, lowest, highest) == Clamp(start * Clamp(ratio, low, up), lowest, highest)
  {
    low, ratio := 1.0 / down, wanted / start;
    MulDiv(1.0, down);
    MulDiv(wanted, start);
  }

  lemma StepProduct(start: real, ratio: real, wanted: real, down: real, low: real, up: real, bottom: real, top: real)
    requires start > 0.0 && start * ratio == wanted
    requires down > 0.0 && down * low == 1.0 && down * bottom == start && start * up == top
    ensures start * Clamp(ratio, low, up) == Clamp(wanted, bottom, top)
  {
    Divided(start, down, low, bottom);
    ScaledClamp(start, ratio, wanted, low, up, bottom, top);
  }

  lemma ClampTwice(wanted: real, low: real, high: real, lowest: real, highest: real, other: real)
    requires low <= high && lowest <= highest && low <= highest && lowest <= high
    ensures var next := Clamp(Clamp(wanted, low, high), lowest, highest);
            && lowest <= next <= highest && low <= next <= high
            && (lowest <= other <= highest && low <= other <= high ==> Abs(next - wanted) <= Abs(other - wanted))
            && (lowest <= wanted <= highest && low <= wanted <= high <==> next == wanted)
  {
  }

  /** A difficulty one retarget may reach: in the lane, and within the step factors. */
  predicate Reachable(next: real, start: real, down: real, up: real, lowest: real, highest: real)
    requires down > 0.0
  {
    lowest <= next <= highest && start / down <= next <= start * up
  }

  /** A step ends at the reachable difficulty closest to the wanted one: at it, when it is reachable. */
  lemma StepIsClosest(start: real, wanted: real, down: real, up: real, lowest: real, highest: real, other: real)
    requires 0.0 < lowest <= start <= highest && down >= 1.0 && up >= 1.0
    ensures var next := Step(start, wanted, down, up, lowest, highest);
            && Reachable(next, start, down, up, lowest, highest)
            && (Reachable(other, start, down, up, lowest, highest) ==> Abs(next - wanted) <= Abs(other - wanted))
            && (Reachable(wanted, start, down, up, lowest, highest) <==> next == wanted)
  {
    var bottom, top := start / down, start * up;
    MulDiv(start, down);
    DownUp(start, down, up, bottom, top);
    StepForm(start, wanted, down, up, lowest, highest, bottom, top);
    ClampTwice(wanted, bottom, top, lowest, highest, other);
  }

  /** The next difficulty is always one that a retarget may reach: in the lane, and within the step
      factors of the clamped current one. */
  lemma NextIsReachable(current: real, shares: int, elapsed: real, config: Config, accepted: Option<real>,
      estimate: Option<real>, initial: bool)
    requires config.Accepted() && NextDifficulty(current, shares, elapsed, config, accepted, estimate, initial).Ok?
    ensures Reachable(NextDifficulty(current, shares, elapsed, config, accepted, estimate, initial).value,
                      Clamp(current, config.minimum, config.maximum), config.stepDown, config.Up(initial),
                        config.minimum, config.maximum)
  {
    var start := Clamp(current, config.minimum, config.maximum);
    StepIsClosest(start, Wanted(start, shares, elapsed, config, accepted, estimate).value,
                  config.stepDown, config.Up(initial), config.minimum, config.maximum, start);
  }

  /** A window without shares steps down by the whole down factor, or to the lane's minimum. */
  lemma SilentWindow(current: real, elapsed: real, config: Config, accepted: Option<real>, initial: bool)
    requires config.Accepted() && current > 0.0 && elapsed > 0.0
    ensures var start := Clamp(current, config.minimum, config.maximum);
            NextDifficulty(current, 0, elapsed, config, accepted, None, initial)
            == Ok(if start / config.stepDown >= config.minimum then start / config.stepDown else config.minimum)
  {
    var start := Clamp(current, config.minimum, config.maximum);
    StepsDown(start, config.stepDown, config.Up(initial), config.minimum, config.maximum);
  }

  lemma StepsDown(start: real, down: real, up: real, lowest: real, highest: real)
    requires 0.0 < lowest <= start <= highest && down >= 1.0 && up >= 1.0
    ensures Step(start, start / down, down, up, lowest, highest) == if start / down >= lowest then start / down
            else lowest
  {
    var bottom, top := start / down, start * up;
    MulDiv(start, down);
    DownUp(start, down, up, bottom, top);
    StepForm(start, bottom, down, up, lowest, highest, bottom, top);
  }

  // ----- the next difficulty from the window alone

  /** The difficulty that would have given one share an interval: over the window it is the accepted work
      over the interval. */
  lemma ObservedExactly(accepted: real, elapsed: real, interval: real)
    ensures Observed(accepted, elapsed, interval).Ok? <==> accepted >= 0.0 && elapsed > 0.0
    ensures Observed(accepted, elapsed, interval).Ok? ==>
              var observed := Observed(accepted, elapsed, interval).value;
              (observed.None? <==> accepted == 0.0)
                && (observed.Some? ==> observed.value * elapsed == accepted * interval)
  {
    if accepted > 0.0 && elapsed > 0.0 {
      MulDiv(accepted * interval, elapsed);
    }
  }

  /** `now` is `value`, or the bound it is beyond. */
  predicate IsClamped(now: real, value: real, lowest: real, highest: real) {
    now == if value < lowest then lowest else if value > highest then highest else value
  }

  /** The difficulty `aim` that a window argues for, from `start` on: the estimate if there is one; for a
      window without work, a whole step down; and otherwise the one at which the accepted work (or that of
      the shares, each at `start`) would have come at one share an interval. */
  predicate Argues(aim: real, start: real, shares: int, elapsed: real, config: Config, accepted: Option<real>,
      estimate: Option<real>)
  {
    if estimate.Some? then aim == estimate.value
    else if shares == 0 || accepted == Some(0.0) then aim * config.stepDown == start
    else aim * elapsed == (if accepted.Some? then accepted.value else start * shares as real) * config.shareInterval
  }

  lemma WantedArgues(start: real, shares: nat, elapsed: real, config: Config, accepted: Option<real>,
      estimate: Option<real>)
    requires config.Accepted() && start > 0.0 && elapsed > 0.0
    ensures Wanted(start, shares, elapsed, config, accepted, estimate).Ok? <==>
            if estimate.Some? then estimate.value > 0.0 else shares == 0 || accepted.None? || accepted.value >= 0.0
    ensures Wanted(start, shares, elapsed, config, accepted, estimate).Ok? ==>
              Argues(Wanted(start, shares, elapsed, config, accepted, estimate).value, start, shares, elapsed, config,
                     accepted, estimate)
  {
    MulDiv(start, config.stepDown);
    if estimate.None? && shares > 0 {
      Positive(start, shares as real);
      ObservedExactly(if accepted.Some? then accepted.value else start * shares as real, elapsed, config.shareInterval);
    }
  }

  /** The next difficulty, from what the caller passes: which windows have one, what they argue for, and
      that it is the closest to that of all a retarget may reach. */
  lemma NextExactly(current: real, shares: int, elapsed: real, config: Config, accepted: Option<real>,
      estimate: Option<real>, initial: bool)
    requires config.Accepted()
    ensures NextDifficulty(current, shares, elapsed, config, accepted, estimate, initial).Ok? <==>
            && current > 0.0 && shares >= 0 && elapsed > 0.0
            && if estimate.Some? then estimate.value > 0.0 else shares == 0 || accepted.None? || accepted.value >= 0.0
    ensures NextDifficulty(current, shares, elapsed, config, accepted, estimate, initial).Ok? ==>
              var next := NextDifficulty(current, shares, elapsed, config, accepted, estimate, initial).value;
              var up := if initial && config.initialEnabled then config.initialStepUp else config.stepUp;
              exists start, aim :: StepsTo(next, start, aim, up, current, shares, elapsed, config, accepted, estimate)
  {
    var start := Clamp(current, config.minimum, config.maximum);
    if current > 0.0 && shares >= 0 && elapsed > 0.0 {
      WantedArgues(start, shares, elapsed, config, accepted, estimate);
      var wanted := Wanted(start, shares, elapsed, config, accepted, estimate);
      if wanted.Ok? {
        var next := NextDifficulty(current, shares, elapsed, config, accepted, estimate, initial).value;
        forall other
          ensures CloserThan(next, wanted.value, other, start, config, config.Up(initial))
        {
          StepIsClosest(start, wanted.value, config.stepDown, config.Up(initial), config.minimum, config.maximum,
                        other);
        }
        NextIsReachable(current, shares, elapsed, config, accepted, estimate, initial);
        assert StepsTo(next, start, wanted.value, config.Up(initial), current, shares, elapsed, config, accepted,
                       estimate);
      }
    }
  }

  predicate CloserThan(next: real, aim: real, other: real, start: real, config: Config, up: real)
    requires config.Accepted()
  {
    Reachable(other, start, config.stepDown, up, config.minimum, config.maximum) ==> Abs(next - aim) <= Abs(other - aim)
  }

  /** `next` is the closest to `aim` of what may be reached from the clamped current difficulty. */
  ghost predicate StepsTo(next: real, start: real, aim: real, up: real, current: real, shares: int, elapsed: real,
      config: Config, accepted: Option<real>, estimate: Option<real>)
    requires config.Accepted()
  {
    && IsClamped(start, current, config.minimum, config.maximum)
    && Argues(aim, start, shares, elapsed, config, accepted, estimate)
    && Reachable(next, start, config.stepDown, up, config.minimum, config.maximum)
    && forall other :: CloserThan(next, aim, other, start, config, up)
  }

  // ----- the estimate

  /** The estimate is the weighted mean of the observed difficulty and the one before, within the lane. */
  lemma SmoothExactly(observed: real, previous: Option<real>, config: Config)
    requires config.Accepted()
    ensures Smooth(observed, previous, config).Ok? <==> observed > 0.0 && (previous.None? || previous.value > 0.0)
    ensures Smooth(observed, previous, config).Ok? ==>
              exists mean :: IsClamped(Smooth(observed, previous, config).value, mean, config.minimum, config.maximum)
                && mean == if previous.None? then observed
                           else previous.value + config.alpha * (observed - previous.value)
  {
    if Smooth(observed, previous, config).Ok? {
      var mean := if previous.None? then observed
                  else observed * config.alpha + previous.value * (1.0 - config.alpha);
      if previous.Some? {
        assert mean == previous.value + config.alpha * (observed - previous.value);
      }
      assert IsClamped(Smooth(observed, previous, config).value, mean, config.minimum, config.maximum);
    }
  }

  /** `error`, `keep` times itself every window. */
  function Shrunk(error: real, keep: real, windows: nat): real {
    if windows == 0 then error else keep * Shrunk(error, keep, windows - 1)
  }

  lemma Between(a: real, b: real, alpha: real, low: real, high: real)
    requires low <= a <= high && low <= b <= high && 0.0 <= alpha <= 1.0
    ensures low <= a * alpha + b * (1.0 - alpha) <= high
    ensures a * alpha + b * (1.0 - alpha) - a == (1.0 - alpha) * (b - a)
  {
    assert a * alpha + b * (1.0 - alpha) == a + (1.0 - alpha) * (b - a) == b + alpha * (a - b);
    if a <= b {
      NonNegative(1.0 - alpha, b - a);
      NonNegative(alpha, b - a);
      assert alpha * (a - b) == -(alpha * (b - a));
    } else {
      NonNegative(1.0 - alpha, a - b);
      NonNegative(alpha, a - b);
      assert (1.0 - alpha) * (b - a) == -((1.0 - alpha) * (a - b));
    }
  }

  lemma SmoothStep(observed: real, previous: real, config: Config)
    requires config.Accepted() && config.minimum <= observed <= config.maximum
             && config.minimum <= previous <= config.maximum
    ensures var next := Smooth(observed, Some(previous), config);
            next.Ok? && config.minimum <= next.value <= config.maximum
            && next.value - observed == (1.0 - config.alpha) * (previous - observed)
  {
    Between(observed, previous, config.alpha, config.minimum, config.maximum);
  }

  /** `estimates[k]`, after a window that observed `observed`, became the next one. */
  predicate Smoothed(estimates: seq<real>, observed: real, config: Config, k: nat) {
    k + 1 < |estimates| ==> Smooth(observed, Some(estimates[k]), config) == Ok(estimates[k + 1])
  }

  /** Observing the same in-lane difficulty, the estimate stays in the lane and its error shrinks by
      the factor 1 - alpha every window. */
  lemma {:induction false} EstimateConverges(observed: real, estimates: seq<real>, config: Config, windows: nat)
    requires config.Accepted() && config.minimum <= observed <= config.maximum
    requires windows < |estimates| && config.minimum <= estimates[0] <= config.maximum
    requires forall k: nat :: Smoothed(estimates, observed, config, k)
    ensures config.minimum <= estimates[windows] <= config.maximum
    ensures estimates[windows] - observed == Shrunk(estimates[0] - observed, 1.0 - config.alpha, windows)
  {
    if windows > 0 {
      var before := windows - 1;
      EstimateConverges(observed, estimates, config, before);
      assert Smoothed(estimates, observed, config, before);
      NextError(observed, estimates[before], estimates[windows], config,
                Shrunk(estimates[0] - observed, 1.0 - config.alpha, before));
    }
  }

  lemma NextError(observed: real, previous: real, next: real, config: Config, error: real)
    requires config.Accepted() && config.minimum <= observed <= config.maximum
             && config.minimum <= previous <= config.maximum
    requires Smooth(observed, Some(previous), config) == Ok(next) && previous - observed == error
    ensures config.minimum <= next <= config.maximum && next - observed == (1.0 - config.alpha) * error
  {
    SmoothStep(observed, previous, config);
  }

  // ----- targets

  /** `difficulty_target`, with `diff1` the target of difficulty one. */
  function TargetOf(diff1: real, difficulty: real): int
    requires difficulty > 0.0
  {
    var target := (diff1 / difficulty).Floor;
    if target >= 1 then target else 1
  }

  /** `target_difficulty` */
  function DifficultyOf(diff1: real, target: int): real
    requires target > 0
  {
    diff1 / target as real
  }

  /** The target is the largest whole number that a hash of the difficulty may be, and one at least. */
  lemma TargetExactly(diff1: real, difficulty: real)
    requires diff1 > 0.0 && difficulty > 0.0
    ensures var target := TargetOf(diff1, difficulty);
            && target >= 1 && diff1 < (target as real + 1.0) * difficulty
            && (target == 1 || target as real * difficulty <= diff1)
            && (difficulty > diff1 ==> target == 1)
  {
    var exact := diff1 / difficulty;
    MulDiv(diff1, difficulty);
    var floor := exact.Floor as real;
    FloorProduct(diff1, exact, difficulty, floor);
    if exact < 1.0 {
      StrictlyBelow(exact, 1.0, difficulty, diff1);
      OneMore(1.0, difficulty);
    }
    if difficulty > diff1 && exact >= 1.0 {
      Below(1.0, exact, difficulty, diff1);
    }
  }

  /** A difficulty sent as a target and read back is never easier, and harder by less than
      d * d / (diff1 - d). */
  lemma TargetRoundTrip(diff1: real, difficulty: real)
    requires 0.0 < difficulty < diff1
    ensures TargetOf(diff1, difficulty) >= 1
    ensures var back := DifficultyOf(diff1, TargetOf(diff1, difficulty));
            difficulty <= back < difficulty + difficulty * difficulty / (diff1 - difficulty)
  {
    var exact := diff1 / difficulty;
    MulDiv(diff1, difficulty);
    AboveOne(exact, difficulty, diff1);
    var target := exact.Floor as real;
    assert target <= exact < target + 1.0 && target >= 1.0;
    RoundTripBounds(diff1, difficulty, target);
  }

  lemma AboveOne(exact: real, difficulty: real, diff1: real)
    requires 0.0 < difficulty < diff1 && difficulty * exact == diff1
    ensures exact > 1.0
  {
    Scaled(exact, 1.0, difficulty);
  }

  lemma RoundTripBounds(diff1: real, difficulty: real, target: real)
    requires 0.0 < difficulty < diff1 && target >= 1.0
    requires target <= diff1 / difficulty < target + 1.0
    ensures difficulty <= diff1 / target < difficulty + difficulty * difficulty / (diff1 - difficulty)
  {
    var back, extra, rest := diff1 / target, difficulty * difficulty / (diff1 - difficulty), diff1 - difficulty;
    MulDiv(diff1, difficulty);
    MulDiv(diff1, target);
    MulDiv(difficulty * difficulty, rest);
    FloorProduct(diff1, diff1 / difficulty, difficulty, target);
    NotBelow(back, difficulty, target, diff1);
    BelowExtra(back, difficulty, target, diff1, extra, rest);
  }

  lemma FloorProduct(diff1: real, exact: real, difficulty: real, target: real)
    requires difficulty > 0.0 && difficulty * exact == diff1 && target <= exact < target + 1.0
    ensures target * difficulty <= diff1 < target * difficulty + difficulty
  {
    Below(target, exact, difficulty, diff1);
    StrictlyBelow(exact, target + 1.0, difficulty, diff1);
    OneMore(target, difficulty);
  }

  lemma Below(a: real, b: real, c: real, d: real)
    requires c > 0.0 && a <= b && c * b == d
    ensures a * c <= d
  {
    Scaled(a, b, c);
  }

  lemma StrictlyBelow(a: real, b: real, c: real, d: real)
    requires c > 0.0 && a < b && c * a == d
    ensures d < b * c
  {
    Scaled(b, a, c);
  }

  lemma OneMore(a: real, b: real)
    ensures (a + 1.0) * b == a * b + b
  {
  }

  lemma NotBelow(back: real, difficulty: real, target: real, diff1: real)
    requires target > 0.0 && target * back == diff1 && target * difficulty <= diff1
    ensures difficulty <= back
  {
    if back < difficulty {
      Positive(difficulty - back, target);
    }
  }

  /** back * rest < back * target * difficulty == diff1 * difficulty == (difficulty + extra) * rest */
  lemma BelowExtra(back: real, difficulty: real, target: real, diff1: real, extra: real, rest: real)
    requires difficulty > 0.0 && rest > 0.0 && rest == diff1 - difficulty && back >= difficulty
    requires target * back == diff1 && rest * extra == difficulty * difficulty
             && diff1 < target * difficulty + difficulty
    ensures back < difficulty + extra
  {
    Positive(back, target * difficulty - rest);
    assert back * (target * difficulty) == (target * back) * difficulty;
    assert (difficulty + extra) * rest == difficulty * rest + difficulty * difficulty;
    assert back * rest < (difficulty + extra) * rest;
    if back >= difficulty + extra {
      NonNegative(back - (difficulty + extra), rest);
    }
  }

  /** `effective_share_target`: the easier of the wanted and the block target, but no easier than the
      least difficulty to advertise, when there is one. */
  function EffectiveTarget(diff1: real, wanted: real, block: int, least: real): int
    requires wanted > 0.0
  {
    var target := TargetOf(diff1, wanted);
    var easier := if target >= block then target else block;
    if least > 0.0 && TargetOf(diff1, least) < easier then TargetOf(diff1, least) else easier
  }

  lemma QuotientsFall(diff1: real, low: real, high: real)
    requires diff1 > 0.0 && 0.0 < low <= high
    ensures diff1 / high <= diff1 / low
  {
    var a, b := diff1 / high, diff1 / low;
    MulDiv(diff1, low);
    MulDiv(diff1, high);
    if a > b {
      Positive(a - b, low);
      assert a > 0.0;
      NonNegative(a, high - low);
    }
  }

  lemma TargetsFall(diff1: real, low: real, high: real)
    requires diff1 > 0.0 && 0.0 < low <= high
    ensures TargetOf(diff1, high) <= TargetOf(diff1, low)
  {
    QuotientsFall(diff1, low, high);
  }

  /** A hash good enough for a block is good enough for a share exactly when the least difficulty
      advertised is not harder than the block's target; and the target is never above what the
      least difficulty allows. */
  lemma BlocksAreShares(diff1: real, wanted: real, block: int, least: real)
    requires diff1 > 0.0 && wanted > 0.0
    ensures var target := EffectiveTarget(diff1, wanted, block, least);
            && (target >= block <==> least <= 0.0 || TargetOf(diff1, least) >= block)
            && (least > 0.0 ==> target <= TargetOf(diff1, least))
            && (0.0 < least <= wanted && TargetOf(diff1, wanted) >= block ==> target == TargetOf(diff1, wanted))
  {
    if 0.0 < least <= wanted {
      TargetsFall(diff1, least, wanted);
    }
  }
}
