/** Longest-first greedy balancing, on durations alone.

    An assignment gives each job (by index) a shard. `Greedy` says what the scheduling loop
    does: every job goes to the lightest shard at that point, the lowest-numbered on a tie. */
module Lpt {

  predicate Assigns(a: seq<nat>, jobs: nat, count: nat) {
    |a| == jobs && forall j :: 0 <= j < jobs ==> a[j] < count
  }

  /** The load of `shard` once the first `k` jobs are placed. */
  function Load(ds: seq<nat>, a: seq<nat>, k: nat, shard: nat): nat
    requires k <= |ds| && k <= |a|
  {
    if k == 0 then 0
    else Load(ds, a, k - 1, shard) + if a[k - 1] == shard then ds[k - 1] else 0
  }

  /** How many of the first `k` jobs are on `shard`. */
  function Count(a: seq<nat>, k: nat, shard: nat): nat
    requires k <= |a|
  {
    if k == 0 then 0
    else Count(a, k - 1, shard) + if a[k - 1] == shard then 1 else 0
  }

  function Work(ds: seq<nat>, k: nat): nat
    requires k <= |ds|
  {
    if k == 0 then 0 else Work(ds, k - 1) + ds[k - 1]
  }

  function SumOfLoads(ds: seq<nat>, a: seq<nat>, k: nat, shards: nat): nat
    requires k <= |ds| && k <= |a|
  {
    if shards == 0 then 0 else SumOfLoads(ds, a, k, shards - 1) + Load(ds, a, k, shards - 1)
  }

  function SumOfCounts(a: seq<nat>, k: nat, shards: nat): nat
    requires k <= |a|
  {
    if shards == 0 then 0 else SumOfCounts(a, k, shards - 1) + Count(a, k, shards - 1)
  }

  /** The largest load over the first `shards` shards. */
  function Makespan(ds: seq<nat>, a: seq<nat>, shards: nat): (r: nat)
    requires |a| == |ds|
    ensures forall s :: 0 <= s < shards ==> Load(ds, a, |ds|, s) <= r
  {
    if shards == 0 then 0
    else
      var rest := Makespan(ds, a, shards - 1);
      var last := Load(ds, a, |ds|, shards - 1);
      if last > rest then last else rest
  }

  /** Some shard has the makespan. */
  lemma {:induction false} MakespanAttained(ds: seq<nat>, a: seq<nat>, shards: nat) returns (s: nat)
    requires |a| == |ds| && shards >= 1
    ensures s < shards && Load(ds, a, |ds|, s) == Makespan(ds, a, shards)
  {
    s := shards - 1;
    if Load(ds, a, |ds|, s) < Makespan(ds, a, shards)
        || (shards > 1 && Load(ds, a, |ds|, s) <= Makespan(ds, a, shards - 1)) {
      s := MakespanAttained(ds, a, shards - 1);
    }
  }

  ghost predicate Lightest(ds: seq<nat>, a: seq<nat>, k: nat, shard: nat, count: nat)
    requires k <= |ds| && k <= |a|
  {
    && shard < count
    && (forall s :: 0 <= s < count ==> Load(ds, a, k, shard) <= Load(ds, a, k, s))
    && (forall s :: 0 <= s < shard ==> Load(ds, a, k, shard) < Load(ds, a, k, s))
  }

  ghost predicate Greedy(ds: seq<nat>, a: seq<nat>, count: nat) {
    |a| == |ds| && forall j :: 0 <= j < |ds| ==> Lightest(ds, a, j, a[j], count)
  }

  ghost predicate LongestFirst(ds: seq<nat>) {
    forall i, j :: 0 <= i <= j < |ds| ==> ds[j] <= ds[i]
  }

  // ----- sums over jobs and over shards agree

  lemma {:induction false} OneMoreJob(ds: seq<nat>, a: seq<nat>, k: nat, shards: nat)
    requires 0 < k <= |ds| && k <= |a|
    ensures SumOfLoads(ds, a, k, shards)
         == SumOfLoads(ds, a, k - 1, shards) + if a[k - 1] < shards then ds[k - 1] else 0
    ensures SumOfCounts(a, k, shards) == SumOfCounts(a, k - 1, shards) + if a[k - 1] < shards then 1 else 0
  {
    if shards != 0 {
      OneMoreJob(ds, a, k, shards - 1);
    }
  }

  lemma {:induction false} SumsAgree(ds: seq<nat>, a: seq<nat>, k: nat, count: nat)
    requires k <= |ds| && Assigns(a, |ds|, count)
    ensures SumOfLoads(ds, a, k, count) == Work(ds, k)
    ensures SumOfCounts(a, k, count) == k
  {
    if k == 0 {
      NoJobs(ds, a, count);
    } else {
      SumsAgree(ds, a, k - 1, count);
      OneMoreJob(ds, a, k, count);
    }
  }

  lemma NoJobs(ds: seq<nat>, a: seq<nat>, shards: nat)
    ensures SumOfLoads(ds, a, 0, shards) == 0 && SumOfCounts(a, 0, shards) == 0
  {
  }

  lemma {:induction false} SumAtMost(ds: seq<nat>, a: seq<nat>, shards: nat, bound: nat)
    requires |a| == |ds|
    requires forall s :: 0 <= s < shards ==> Load(ds, a, |ds|, s) <= bound
    ensures SumOfLoads(ds, a, |ds|, shards) <= shards * bound
  {
    if shards != 0 {
      SumAtMost(ds, a, shards - 1, bound);
    }
  }

  lemma {:induction false} SumAtLeast(ds: seq<nat>, a: seq<nat>, k: nat, shards: nat, bound: nat)
    requires k <= |ds| && k <= |a|
    requires forall s :: 0 <= s < shards ==> bound <= Load(ds, a, k, s)
    ensures shards * bound <= SumOfLoads(ds, a, k, shards)
  {
    if shards != 0 {
      SumAtLeast(ds, a, k, shards - 1, bound);
    }
  }

  lemma {:induction false} Monotone(ds: seq<nat>, a: seq<nat>, k: nat, n: nat, shard: nat)
    requires k <= n <= |ds| && n <= |a|
    ensures Load(ds, a, k, shard) <= Load(ds, a, n, shard)
    ensures Work(ds, k) <= Work(ds, n)
    ensures Count(a, k, shard) <= Count(a, n, shard)
  {
    if k < n {
      Monotone(ds, a, k, n - 1, shard);
    }
  }

  /** The last job on a loaded shard. */
  lemma {:induction false} LastJob(ds: seq<nat>, a: seq<nat>, k: nat, shard: nat) returns (j: nat)
    requires k <= |ds| && k <= |a| && Load(ds, a, k, shard) > 0
    ensures j < k && a[j] == shard && Load(ds, a, k, shard) == Load(ds, a, j, shard) + ds[j]
  {
    if a[k - 1] == shard {
      j := k - 1;
    } else {
      j := LastJob(ds, a, k - 1, shard);
    }
  }

  // ----- the counting argument for long jobs

  /** If every job lasts at least `p`, a shard with `c` of them is loaded at least `c * p`. */
  lemma {:induction false} LoadAtLeastCount(ds: seq<nat>, a: seq<nat>, k: nat, shard: nat, p: nat)
    requires k <= |ds| && k <= |a|
    requires forall j :: 0 <= j < k ==> p <= ds[j]
    ensures Count(a, k, shard) * p <= Load(ds, a, k, shard)
  {
    if k != 0 {
      LoadAtLeastCount(ds, a, k - 1, shard, p);
    }
  }

  /** A job sharing its shard with another adds at least `p` to its own length there. */
  lemma {:induction false} SharedShard(ds: seq<nat>, a: seq<nat>, k: nat, j: nat, p: nat)
    requires j < k <= |ds| && k <= |a|
    requires forall i :: 0 <= i < k ==> p <= ds[i]
    ensures Count(a, k, a[j]) >= 1
    ensures Count(a, k, a[j]) == 1 || Load(ds, a, k, a[j]) >= ds[j] + p
    ensures Load(ds, a, k, a[j]) >= ds[j]
  {
    if j == k - 1 {
      LoadAtLeastCount(ds, a, k - 1, a[j], p);
      if Count(a, k - 1, a[j]) >= 1 {
        assert Count(a, k - 1, a[j]) * p >= p;
      }
    } else {
      SharedShard(ds, a, k - 1, j, p);
    }
  }

  /** The last of the first `k` jobs on a shard that has any. */
  function LastOn(a: seq<nat>, k: nat, shard: nat): (j: nat)
    requires k <= |a| && Count(a, k, shard) >= 1
    ensures j < k && a[j] == shard
  {
    if a[k - 1] == shard then k - 1 else LastOn(a, k - 1, shard)
  }

  /** A shard with one job is loaded with exactly that job. */
  lemma {:induction false} OnlyJob(ds: seq<nat>, a: seq<nat>, k: nat, shard: nat)
    requires k <= |ds| && k <= |a| && Count(a, k, shard) == 1
    ensures Load(ds, a, k, shard) == ds[LastOn(a, k, shard)]
  {
    if a[k - 1] == shard {
      Unused(ds, a, k - 1, shard);
    } else {
      OnlyJob(ds, a, k - 1, shard);
    }
  }

  lemma Unused(ds: seq<nat>, a: seq<nat>, k: nat, shard: nat)
    requires k <= |ds| && k <= |a|
    ensures Count(a, k, shard) == 0 ==> Load(ds, a, k, shard) == 0
  {
  }

  function Lonely(a: seq<nat>, k: nat, shards: nat): set<nat>
    requires k <= |a|
  {
    set s: nat | s < shards && Count(a, k, s) <= 1
  }

  lemma LonelyStep(a: seq<nat>, k: nat, shards: nat)
    requires k <= |a| && shards > 0
    ensures |Lonely(a, k, shards)|
         == |Lonely(a, k, shards - 1)| + if Count(a, k, shards - 1) <= 1 then 1 else 0
  {
    if Count(a, k, shards - 1) <= 1 {
      assert Lonely(a, k, shards) == Lonely(a, k, shards - 1) + {shards - 1};
    } else {
      assert Lonely(a, k, shards) == Lonely(a, k, shards - 1);
    }
  }

  /** No empty shard: the jobs number at least two per shard, less the lonely shards. */
  lemma {:induction false} CrowdedBelow(a: seq<nat>, k: nat, shards: nat)
    requires k <= |a|
    requires forall s :: 0 <= s < shards ==> Count(a, k, s) >= 1
    ensures 2 * shards <= SumOfCounts(a, k, shards) + |Lonely(a, k, shards)|
  {
    if shards != 0 {
      CrowdedBelow(a, k, shards - 1);
      LonelyStep(a, k, shards);
    }
  }

  /** At most two jobs a shard: they number at most two per shard, less the lonely shards. */
  lemma {:induction false} CrowdedAbove(a: seq<nat>, k: nat, shards: nat)
    requires k <= |a|
    requires forall s :: 0 <= s < shards ==> Count(a, k, s) <= 2
    ensures SumOfCounts(a, k, shards) + |Lonely(a, k, shards)| <= 2 * shards
  {
    if shards != 0 {
      CrowdedAbove(a, k, shards - 1);
      LonelyStep(a, k, shards);
    }
  }

  /** An injective relation out of `xs` into `ys` bounds its size. */
  lemma {:induction false} Injection(xs: set<nat>, ys: set<nat>, f: map<nat, nat>)
    requires f.Keys == xs
    requires forall x :: x in xs ==> f[x] in ys
    requires forall x, y :: x in xs && y in xs && f[x] == f[y] ==> x == y
    ensures |xs| <= |ys|
  {
    if xs != {} {
      var x :| x in xs;
      var g := map y | y in xs && y != x :: f[y];
      assert g.Keys == xs - {x};
      Injection(xs - {x}, ys - {f[x]}, g);
    }
  }

  ghost predicate Within(ds: seq<nat>, b: seq<nat>, n: nat, count: nat, bound: nat)
    requires n <= |ds| && n <= |b|
  {
    forall s :: 0 <= s < count ==> Load(ds, b, n, s) <= bound
  }

  lemma Times(c: nat, d: nat, p: nat)
    ensures c <= d ==> c * p <= d * p
  {
  }

  /** When job `k` would overshoot `bound`, and is over a third of it, no assignment of the jobs
      up to `k` stays within `bound`: each single job of the greedy schedule needs a shard of its
      own, and no shard can hold three. */
  lemma LongJobsDoNotFit(ds: seq<nat>, a: seq<nat>, b: seq<nat>, count: nat, k: nat, n: nat, bound: nat)
    requires LongestFirst(ds) && Assigns(a, |ds|, count) && Assigns(b, |ds|, count)
    requires k < |ds| && n == k + 1 && Lightest(ds, a, k, a[k], count)
    requires ds[k] <= bound < 3 * ds[k]
    requires bound < Load(ds, a, k, a[k]) + ds[k]
    ensures !Within(ds, b, n, count, bound)
  {
    if Within(ds, b, n, count, bound) {
      forall s | 0 <= s < count
        ensures Count(a, k, s) >= 1 && Count(b, n, s) <= 2
      {
        Unused(ds, a, k, s);
        LoadAtLeastCount(ds, b, n, s, ds[k]);
        Times(3, Count(b, n, s), ds[k]);
      }
      CrowdedBelow(a, k, count);
      CrowdedAbove(b, n, count);
      SumsAgree(ds, a, k, count);
      SumsAgree(ds, b, n, count);
      SinglesStayAlone(ds, a, b, count, k, n, bound);
      assert false;
    }
  }

  /** The job of a single-job shard of the greedy schedule is alone on its shard of `b`. */
  lemma SingleStaysAlone(ds: seq<nat>, a: seq<nat>, b: seq<nat>, count: nat, k: nat, n: nat, bound: nat, s: nat)
    requires LongestFirst(ds) && Assigns(a, |ds|, count) && Assigns(b, |ds|, count)
    requires k < |ds| && n == k + 1 && Lightest(ds, a, k, a[k], count)
    requires bound < Load(ds, a, k, a[k]) + ds[k] && Within(ds, b, n, count, bound)
    requires s < count && Count(a, k, s) == 1
    ensures b[LastOn(a, k, s)] < count && Count(b, n, b[LastOn(a, k, s)]) == 1
  {
    OnlyJob(ds, a, k, s);
    SharedShard(ds, b, n, LastOn(a, k, s), ds[k]);
  }

  lemma SinglesStayAlone(ds: seq<nat>, a: seq<nat>, b: seq<nat>, count: nat, k: nat, n: nat, bound: nat)
    requires LongestFirst(ds) && Assigns(a, |ds|, count) && Assigns(b, |ds|, count)
    requires k < |ds| && n == k + 1 && Lightest(ds, a, k, a[k], count)
    requires bound < Load(ds, a, k, a[k]) + ds[k] && Within(ds, b, n, count, bound)
    requires forall s :: 0 <= s < count ==> Count(a, k, s) >= 1
    ensures |Lonely(a, k, count)| <= |Lonely(b, n, count)|
  {
    var singles := Lonely(a, k, count);
    var f := map s | s in singles :: b[LastOn(a, k, s)];
    forall s | s in singles
      ensures f[s] in Lonely(b, n, count)
    {
      SingleStaysAlone(ds, a, b, count, k, n, bound, s);
    }
    forall s, t | s in singles && t in singles && f[s] == f[t]
      ensures s == t
    {
      if s != t {
        SingleStaysAlone(ds, a, b, count, k, n, bound, s);
        TwoOnOne(b, n, LastOn(a, k, s), LastOn(a, k, t));
      }
    }
    Injection(singles, Lonely(b, n, count), f);
  }

  lemma {:induction false} TwoOnOne(a: seq<nat>, k: nat, i: nat, j: nat)
    requires i < k <= |a| && j < k && i != j && a[i] == a[j]
    ensures Count(a, k, a[i]) >= 2
  {
    if i < k - 1 && j < k - 1 {
      TwoOnOne(a, k - 1, i, j);
    } else {
      AtLeastOne(a, k - 1, if i < j then i else j);
    }
  }

  lemma {:induction false} AtLeastOne(a: seq<nat>, k: nat, j: nat)
    requires j < k <= |a|
    ensures Count(a, k, a[j]) >= 1
  {
    if j < k - 1 {
      AtLeastOne(a, k - 1, j);
    }
  }

  // ----- the bounds

  /** No shard, less its last job, is over the lightest shard at the end. */
  lemma LessItsLastJob(ds: seq<nat>, a: seq<nat>, count: nat, shard: nat, other: nat) returns (j: nat)
    requires Greedy(ds, a, count) && shard < count && other < count
    requires Load(ds, a, |ds|, shard) > 0
    ensures j < |ds| && a[j] == shard
    ensures Load(ds, a, |ds|, shard) == Load(ds, a, j, shard) + ds[j]
    ensures Load(ds, a, |ds|, shard) - ds[j] <= Load(ds, a, |ds|, other)
  {
    j := LastJob(ds, a, |ds|, shard);
    assert Lightest(ds, a, j, a[j], count);
    Monotone(ds, a, j, |ds|, other);
  }

  /** A job's length is within any assignment's makespan. */
  lemma JobWithin(ds: seq<nat>, b: seq<nat>, count: nat, j: nat)
    requires Assigns(b, |ds|, count) && j < |ds|
    ensures ds[j] <= Makespan(ds, b, count)
  {
    Monotone(ds, b, j + 1, |ds|, b[j]);
  }

  /** Where a job starts: `count` times its start, plus the job itself, is at most `count` times
      any assignment's makespan. */
  lemma StartBound(ds: seq<nat>, a: seq<nat>, b: seq<nat>, count: nat, k: nat)
    requires count >= 1 && k < |ds| && Assigns(a, |ds|, count) && Assigns(b, |ds|, count)
    requires Lightest(ds, a, k, a[k], count)
    ensures count * Load(ds, a, k, a[k]) + ds[k] <= count * Makespan(ds, b, count)
  {
    SumAtLeast(ds, a, k, count, Load(ds, a, k, a[k]));
    SumsAgree(ds, a, k, count);
    SumsAgree(ds, b, |ds|, count);
    SumAtMost(ds, b, count, Makespan(ds, b, count));
    Monotone(ds, b, k + 1, |ds|, 0);
  }

  /** Greedy in any order of the jobs: within 2 - 1/count of the best assignment. */
  lemma ListBound(ds: seq<nat>, a: seq<nat>, b: seq<nat>, count: nat)
    requires count >= 1 && Greedy(ds, a, count) && Assigns(b, |ds|, count)
    ensures count * Makespan(ds, a, count) <= (2 * count - 1) * Makespan(ds, b, count)
  {
    var m := Makespan(ds, b, count);
    var s := MakespanAttained(ds, a, count);
    if Load(ds, a, |ds|, s) > 0 {
      var k := LastJob(ds, a, |ds|, s);
      assert Lightest(ds, a, k, a[k], count);
      StartBound(ds, a, b, count, k);
      JobWithin(ds, b, count, k);
      AnyLastJob(count, Load(ds, a, k, s), ds[k], m);
    } else {
      Times(0, 2 * count - 1, m);
    }
  }

  lemma AnyLastJob(count: nat, start: nat, p: nat, m: nat)
    requires count >= 1 && p <= m && count * start + p <= count * m
    ensures count * (start + p) <= (2 * count - 1) * m
  {
    assert count * (start + p) == count * start + p + (count - 1) * p;
    assert (count - 1) * p <= (count - 1) * m;
    assert (2 * count - 1) * m == count * m + (count - 1) * m;
  }

  lemma MonotoneWithin(ds: seq<nat>, b: seq<nat>, n: nat, count: nat, bound: nat)
    requires n <= |ds| == |b| && Within(ds, b, |ds|, count, bound)
    ensures Within(ds, b, n, count, bound)
  {
    forall s | 0 <= s < count
      ensures Load(ds, b, n, s) <= bound
    {
      Monotone(ds, b, n, |ds|, s);
    }
  }

  /** Longest first: within 4/3 - 1/(3 count) of the best assignment, whichever that is. */
  lemma LptBound(ds: seq<nat>, a: seq<nat>, b: seq<nat>, count: nat)
    requires count >= 1 && LongestFirst(ds) && Greedy(ds, a, count) && Assigns(b, |ds|, count)
    ensures 3 * count * Makespan(ds, a, count) <= (4 * count - 1) * Makespan(ds, b, count)
  {
    var m := Makespan(ds, b, count);
    var s := MakespanAttained(ds, a, count);
    if Load(ds, a, |ds|, s) > 0 {
      var k := LastJob(ds, a, |ds|, s);
      assert Lightest(ds, a, k, a[k], count);
      StartBound(ds, a, b, count, k);
      JobWithin(ds, b, count, k);
      var start, p := Load(ds, a, k, s), ds[k];
      if 3 * p <= m {
        ShortLastJob(count, start, p, m);
      } else {
        if m < start + p {
          MonotoneWithin(ds, b, k + 1, count, m);
          LongJobsDoNotFit(ds, a, b, count, k, k + 1, m);
        }
        LongLastJob(count, start + p, m);
      }
    } else {
      Times(0, 4 * count - 1, m);
    }
  }

  lemma LptBoundOfShard(ds: seq<nat>, a: seq<nat>, b: seq<nat>, count: nat, shard: nat)
    requires LongestFirst(ds) && Greedy(ds, a, count) && Assigns(b, |ds|, count) && shard < count
    ensures 3 * count * Load(ds, a, |ds|, shard) <= (4 * count - 1) * Makespan(ds, b, count)
  {
    LptBound(ds, a, b, count);
    Scale(Load(ds, a, |ds|, shard), Makespan(ds, a, count), 3 * count);
  }

  lemma Scale(x: nat, y: nat, c: nat)
    requires x <= y
    ensures c * x <= c * y
  {
  }

  lemma ShortLastJob(count: nat, start: nat, p: nat, m: nat)
    requires count >= 1 && 3 * p <= m && count * start + p <= count * m
    ensures 3 * count * (start + p) <= (4 * count - 1) * m
  {
    assert 3 * count * (start + p) == 3 * (count * start) + count * (3 * p);
    assert (count - 1) * (3 * p) <= (count - 1) * m;
    assert count * (3 * p) == (count - 1) * (3 * p) + 3 * p;
    assert (4 * count - 1) * m == 3 * (count * m) + (count - 1) * m;
  }

  lemma LongLastJob(count: nat, load: nat, m: nat)
    requires count >= 1 && load <= m
    ensures 3 * count * load <= (4 * count - 1) * m
  {
    assert count * load <= count * m;
    assert 3 * count * load == 3 * (count * load);
    assert (4 * count - 1) * m == 3 * (count * m) + (count - 1) * m;
  }

  // ----- which shards are empty

  /** While shards outnumber jobs, job `j` opens shard `j`; so with positive durations exactly
      the shards below the number of jobs are used. */
  lemma {:induction false} ShardUsed(ds: seq<nat>, a: seq<nat>, count: nat, k: nat, shard: nat)
    requires Greedy(ds, a, count) && k <= |ds| && shard < count
    requires forall j :: 0 <= j < |ds| ==> 0 < ds[j]
    ensures Count(a, k, shard) > 0 <==> shard < k
    ensures Load(ds, a, k, shard) > 0 <==> shard < k
  {
    if k != 0 {
      ShardUsed(ds, a, count, k - 1, shard);
      assert Lightest(ds, a, k - 1, a[k - 1], count);
      ShardUsed(ds, a, count, k - 1, a[k - 1]);
      if k - 1 < count {
        ShardUsed(ds, a, count, k - 1, k - 1);
        assert a[k - 1] == k - 1;
      }
    }
  }
}
