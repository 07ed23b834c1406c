/** scripts/run_rust_test_shard.py: the workspace's Rust targets, dealt to CI shards. */
module RustShards {
  import opened Results
  import opened Sorting
  import Lpt

  datatype Target = Target(package: string, kind: string, name: string)
  datatype CargoTarget = CargoTarget(kinds: seq<string>, name: string)
  datatype Package = Package(id: string, name: string, targets: seq<CargoTarget>)
  datatype Metadata = Metadata(packages: seq<Package>, members: seq<string>)

  datatype Error = BadShard | UnsupportedKind(kinds: seq<string>) | NoTargets

  type Command = seq<string>

  const COMPACT_SCALE := Target("qbit-prism-server", "test", "compact_runtime_scale")

  const IGNORED: map<Target, seq<string>> := map[
    Target("qbit-prism-server", "test", "stratum_admission_postgres") :=
      ["--exact", "ten_thousand_unsubscribed_connections_do_not_advance_postgres_sequence"],
    Target("qbit-prism-server", "test", "observability_database") := [],
    COMPACT_SCALE := ["--test-threads=1"],
    Target("qbit-prism-server", "test", "issued_job_dependency") := ["--test-threads=2"]]

  const DURATION_SECONDS: map<Target, nat> := map[
    Target("qbit-prism-server", "test", "live_regtest") := 700,
    Target("qbit-prism-server", "lib", "qbit_prism_server") := 330,
    Target("qbit-prism-server", "test", "candidate_storm_restart") := 270,
    COMPACT_SCALE := 240,
    Target("qbit-prism-server", "test", "ledger_postgres") := 210]

  const DEFAULT_DURATION_SECONDS: nat := 20

  function TypicalSeconds(t: Target): (r: nat)
    ensures r > 0
  {
    if t in DURATION_SECONDS then DURATION_SECONDS[t] else DEFAULT_DURATION_SECONDS
  }

  // ----- orders

  predicate TargetLe(a: Target, b: Target) {
    if a.package != b.package then StringLe(a.package, b.package)
    else if a.kind != b.kind then StringLe(a.kind, b.kind)
    else StringLe(a.name, b.name)
  }

  /** The key (-seconds, target). */
  predicate LongerFirst(a: Target, b: Target) {
    TypicalSeconds(a) > TypicalSeconds(b) || (TypicalSeconds(a) == TypicalSeconds(b) && TargetLe(a, b))
  }

  lemma TargetOrder()
    ensures Preorder(TargetLe) && Antisymmetric(TargetLe)
  {
    forall a, b: Target
      ensures TargetLe(a, b) || TargetLe(b, a)
      ensures TargetLe(a, b) && TargetLe(b, a) ==> a == b
    {
      PairOrder(a.package, b.package);
      PairOrder(a.kind, b.kind);
      PairOrder(a.name, b.name);
    }
    forall a, b, c: Target | TargetLe(a, b) && TargetLe(b, c)
      ensures TargetLe(a, c)
    {
      TripleOrder(a.package, b.package, c.package);
      TripleOrder(a.kind, b.kind, c.kind);
      TripleOrder(a.name, b.name, c.name);
    }
  }

  lemma PairOrder(a: string, b: string)
    ensures StringLe(a, b) || StringLe(b, a)
    ensures StringLe(a, b) && StringLe(b, a) ==> a == b
  {
    StringTotal(a, b);
    if StringLe(a, b) && StringLe(b, a) {
      StringAntisymmetric(a, b);
    }
  }

  lemma TripleOrder(a: string, b: string, c: string)
    ensures StringLe(a, b) && StringLe(b, c) ==> StringLe(a, c)
    ensures a == c && a != b ==> !(StringLe(a, b) && StringLe(b, c))
  {
    if StringLe(a, b) && StringLe(b, c) {
      StringTransitive(a, b, c);
      if a == c {
        StringAntisymmetric(a, b);
      }
    }
  }

  lemma LongerFirstOrder()
    ensures Preorder(LongerFirst)
  {
    TargetOrder();
  }

  // ----- discovery

  predicate Supported(kinds: seq<string>) {
    |kinds| == 1 && kinds[0] in ["lib", "bin", "test", "bench", "example"]
  }

  const CUSTOM_BUILD: seq<string> := ["custom-build"]

  /** The targets of one package's first `n` entries, or the first unsupported kind. */
  function PackageTargets(p: Package, n: nat): Result<seq<Target>, Error>
    requires n <= |p.targets|
  {
    if n == 0 then Ok([])
    else
      var before :- PackageTargets(p, n - 1);
      var t := p.targets[n - 1];
      if t.kinds == CUSTOM_BUILD then Ok(before)
      else if !Supported(t.kinds) then Err(UnsupportedKind(t.kinds))
      else Ok(before + [Target(p.name, t.kinds[0], t.name)])
  }

  /** The targets of the workspace's own packages among the first `n`. */
  function Discovered(m: Metadata, n: nat): Result<seq<Target>, Error>
    requires n <= |m.packages|
  {
    if n == 0 then Ok([])
    else
      var before :- Discovered(m, n - 1);
      var p := m.packages[n - 1];
      if p.id !in m.members then Ok(before)
      else
        var own :- PackageTargets(p, |p.targets|);
        Ok(before + own)
  }

  function AllTargets(m: Metadata): Result<seq<Target>, Error> {
    Discovered(m, |m.packages|)
  }

  lemma {:induction false} PackageRefusal(p: Package, n: nat, k: nat)
    requires n <= k <= |p.targets| && PackageTargets(p, n).Err?
    ensures PackageTargets(p, k) == PackageTargets(p, n)
  {
    if n < k {
      PackageRefusal(p, n, k - 1);
    }
  }

  lemma {:induction false} DiscoveryRefusal(m: Metadata, n: nat, k: nat)
    requires n <= k <= |m.packages| && Discovered(m, n).Err?
    ensures Discovered(m, k) == Discovered(m, n)
  {
    if n < k {
      DiscoveryRefusal(m, n, k - 1);
    }
  }

  method WorkspaceTargets(m: Metadata) returns (r: Result<seq<Target>, Error>)
    ensures AllTargets(m).Err? ==> r == AllTargets(m)
    ensures AllTargets(m).Ok? ==> r == Ok(Sort(TargetLe, AllTargets(m).value))
  {
    var targets: seq<Target> := [];
    for i := 0 to |m.packages|
      invariant Discovered(m, i) == Ok(targets)
    {
      var p := m.packages[i];
      ghost var before := targets;
      if p.id in m.members {
        for j := 0 to |p.targets|
          invariant PackageTargets(p, j).Ok? && targets == before + PackageTargets(p, j).value
        {
          var kinds := p.targets[j].kinds;
          if kinds == CUSTOM_BUILD {
            continue;
          }
          if !Supported(kinds) {
            PackageRefusal(p, j + 1, |p.targets|);
            DiscoveryRefusal(m, i + 1, |m.packages|);
            return Err(UnsupportedKind(kinds));
          }
          targets := targets + [Target(p.name, kinds[0], p.targets[j].name)];
        }
      }
    }
    r := Ok(Sort(TargetLe, targets));
  }

  // ----- dealing

  function Durations(ts: seq<Target>): (ds: seq<nat>)
    ensures |ds| == |ts| && forall i :: 0 <= i < |ts| ==> ds[i] == TypicalSeconds(ts[i])
  {
    seq(|ts|, i requires 0 <= i < |ts| => TypicalSeconds(ts[i]))
  }

  /** The targets a shard is dealt among the first `k`, in dealing order. */
  function Dealt(ts: seq<Target>, a: seq<nat>, k: nat, shard: nat): seq<Target>
    requires k <= |ts| && k <= |a|
  {
    if k == 0 then []
    else Dealt(ts, a, k - 1, shard) + if a[k - 1] == shard then [ts[k - 1]] else []
  }

  /** The first of the lightest shards. */
  method FindLightest(loads: array<nat>) returns (lightest: nat)
    requires loads.Length >= 1
    ensures lightest < loads.Length
    ensures forall u :: 0 <= u < loads.Length ==> loads[lightest] <= loads[u]
    ensures forall u :: 0 <= u < lightest ==> loads[lightest] < loads[u]
  {
    lightest := 0;
    for s := 1 to loads.Length
      invariant lightest < loads.Length
      invariant forall u :: 0 <= u < s ==> loads[lightest] <= loads[u]
      invariant forall u :: 0 <= u < lightest ==> loads[lightest] < loads[u]
    {
      if loads[s] < loads[lightest] {
        lightest := s;
      }
    }
  }

  /** The first `i` targets are dealt, each in turn to the lightest shard, and these are the shards. */
  ghost predicate DealtTo(ts: seq<Target>, a: seq<nat>, count: nat, i: nat, loads: seq<nat>, dealt: seq<seq<Target>>) {
    && i == |a| <= |ts| && |loads| == |dealt| == count
    && (forall j :: 0 <= j < i ==> PlacedLightest(ts, a, count, j))
    && (forall s :: 0 <= s < count ==> IsShard(ts, a, i, s, loads[s], dealt[s]))
  }

  ghost predicate PlacedLightest(ts: seq<Target>, a: seq<nat>, count: nat, j: nat)
    requires |a| <= |ts|
  {
    j < |a| && a[j] < count && Lpt.Lightest(Durations(ts), a, j, a[j], count)
  }

  ghost predicate IsShard(ts: seq<Target>, a: seq<nat>, i: nat, s: nat, load: nat, dealt: seq<Target>)
    requires i <= |ts| && i <= |a|
  {
    load == Lpt.Load(Durations(ts), a, i, s) && dealt == Dealt(ts, a, i, s)
  }

  lemma IsLightest(ts: seq<Target>, a: seq<nat>, count: nat, i: nat, loads: seq<nat>, dealt: seq<seq<Target>>,
      lightest: nat)
    requires DealtTo(ts, a, count, i, loads, dealt) && lightest < count
    requires forall u :: 0 <= u < count ==> loads[lightest] <= loads[u]
    requires forall u :: 0 <= u < lightest ==> loads[lightest] < loads[u]
    ensures Lpt.Lightest(Durations(ts), a, i, lightest, count)
  {
    forall u: nat | u < count
      ensures Lpt.Load(Durations(ts), a, i, lightest) <= Lpt.Load(Durations(ts), a, i, u)
      ensures u < lightest ==> Lpt.Load(Durations(ts), a, i, lightest) < Lpt.Load(Durations(ts), a, i, u)
    {
      assert IsShard(ts, a, i, lightest, loads[lightest], dealt[lightest]) && IsShard(ts, a, i, u, loads[u], dealt[u]);
    }
  }

  /** Placing one more target on the lightest shard leaves every earlier placement as it was. */
  lemma DealStep(ts: seq<Target>, a: seq<nat>, count: nat, i: nat, loads: seq<nat>, dealt: seq<seq<Target>>,
      lightest: nat)
    requires DealtTo(ts, a, count, i, loads, dealt) && i < |ts| && lightest < count
    requires Lpt.Lightest(Durations(ts), a, i, lightest, count)
    ensures DealtTo(ts, a + [lightest], count, i + 1, loads[lightest := loads[lightest] + TypicalSeconds(ts[i])],
                    dealt[lightest := dealt[lightest] + [ts[i]]])
  {
    var longer := a + [lightest];
    forall j | 0 <= j <= i
      ensures PlacedLightest(ts, longer, count, j)
    {
      if j < i {
        assert PlacedLightest(ts, a, count, j);
      }
      StillLightest(ts, a, longer, count, j);
    }
    forall s | 0 <= s < count
      ensures IsShard(ts, longer, i + 1, s, if s == lightest then loads[s] + TypicalSeconds(ts[i]) else loads[s],
                      if s == lightest then dealt[s] + [ts[i]] else dealt[s])
    {
      assert IsShard(ts, a, i, s, loads[s], dealt[s]);
      SamePrefix(ts, Durations(ts), a, longer, i, s);
    }
  }

  lemma StillLightest(ts: seq<Target>, a: seq<nat>, longer: seq<nat>, count: nat, j: nat)
    requires a <= longer && j <= |a| && |longer| <= |ts| && j < |longer|
    requires Lpt.Lightest(Durations(ts), a, j, longer[j], count)
    ensures Lpt.Lightest(Durations(ts), longer, j, longer[j], count)
  {
    forall s
      ensures Lpt.Load(Durations(ts), longer, j, s) == Lpt.Load(Durations(ts), a, j, s)
    {
      SamePrefix(ts, Durations(ts), a, longer, j, s);
    }
  }

  /** How the scheduling loop deals `ts` (longest first already) to `count` shards. */
  method Deal(ts: seq<Target>, count: nat) returns (shards: seq<seq<Target>>, ghost a: seq<nat>)
    requires count >= 1
    ensures Lpt.Greedy(Durations(ts), a, count) && Lpt.Assigns(a, |ts|, count)
    ensures |shards| == count
    ensures forall s :: 0 <= s < count ==> shards[s] == Dealt(ts, a, |ts|, s)
  {
    var loads := new nat[count](_ => 0);
    var dealt := new seq<Target>[count](_ => []);
    a := [];
    for i := 0 to |ts|
      invariant DealtTo(ts, a, count, i, loads[..], dealt[..])
    {
      var lightest := FindLightest(loads);
      IsLightest(ts, a, count, i, loads[..], dealt[..], lightest);
      DealStep(ts, a, count, i, loads[..], dealt[..], lightest);
      loads[lightest] := loads[lightest] + TypicalSeconds(ts[i]);
      dealt[lightest] := dealt[lightest] + [ts[i]];
      a := a + [lightest];
    }
    shards := dealt[..];
    AllDealt(ts, a, count, loads[..], shards);
  }

  lemma AllDealt(ts: seq<Target>, a: seq<nat>, count: nat, loads: seq<nat>, dealt: seq<seq<Target>>)
    requires DealtTo(ts, a, count, |ts|, loads, dealt)
    ensures Lpt.Greedy(Durations(ts), a, count) && Lpt.Assigns(a, |ts|, count)
    ensures forall s :: 0 <= s < count ==> dealt[s] == Dealt(ts, a, |ts|, s)
  {
    forall j | 0 <= j < |ts|
      ensures a[j] < count && Lpt.Lightest(Durations(ts), a, j, a[j], count)
    {
      assert PlacedLightest(ts, a, count, j);
    }
    forall s | 0 <= s < count
      ensures dealt[s] == Dealt(ts, a, |ts|, s)
    {
      assert IsShard(ts, a, |ts|, s, loads[s], dealt[s]);
    }
  }

  lemma {:induction false} SamePrefix(ts: seq<Target>, ds: seq<nat>, a: seq<nat>, b: seq<nat>, k: nat, s: nat)
    requires a <= b && k <= |a| && k <= |ts| == |ds|
    ensures Lpt.Load(ds, b, k, s) == Lpt.Load(ds, a, k, s)
    ensures Dealt(ts, b, k, s) == Dealt(ts, a, k, s)
  {
    if k != 0 {
      SamePrefix(ts, ds, a, b, k - 1, s);
    }
  }

  /** A greedy assignment is unique: ties go to the lowest-numbered shard. */
  lemma {:induction false} GreedyUnique(ts: seq<Target>, a: seq<nat>, b: seq<nat>, count: nat, k: nat)
    requires Lpt.Greedy(Durations(ts), a, count) && Lpt.Greedy(Durations(ts), b, count) && k <= |ts|
    ensures a[..k] == b[..k]
  {
    if k != 0 {
      GreedyUnique(ts, a, b, count, k - 1);
      var ds, x, y := Durations(ts), a[k - 1], b[k - 1];
      assert Lpt.Lightest(ds, a, k - 1, x, count) && Lpt.Lightest(ds, b, k - 1, y, count);
      assert a[..k - 1] <= a && a[..k - 1] <= b;
      SamePrefix(ts, ds, a[..k - 1], a, k - 1, x);
      SamePrefix(ts, ds, a[..k - 1], b, k - 1, x);
      SamePrefix(ts, ds, a[..k - 1], a, k - 1, y);
      SamePrefix(ts, ds, a[..k - 1], b, k - 1, y);
      assert a[..k] == a[..k - 1] + [x] && b[..k] == b[..k - 1] + [y];
    }
  }

  /** An assignment such as the loop makes, for use in specifications. */
  ghost function Dealing(ts: seq<Target>, count: nat): (a: seq<nat>)
    requires count >= 1
    ensures Lpt.Greedy(Durations(ts), a, count) && Lpt.Assigns(a, |ts|, count)
  {
    DealingExists(ts, count, |ts|);
    var a :| Lpt.Greedy(Durations(ts), a, count);
    assert forall j :: 0 <= j < |ts| ==> Lpt.Lightest(Durations(ts), a, j, a[j], count);
    a
  }

  lemma {:induction false} DealingExists(ts: seq<Target>, count: nat, k: nat)
    requires count >= 1 && k <= |ts|
    ensures exists a :: Lpt.Greedy(Durations(ts[..k]), a, count)
    ensures k == |ts| ==> ts[..k] == ts
  {
    if k == 0 {
      assert Lpt.Greedy(Durations(ts[..k]), [], count);
    } else {
      DealingExists(ts, count, k - 1);
      var ds, ds' := Durations(ts[..k - 1]), Durations(ts[..k]);
      var a :| Lpt.Greedy(ds, a, count);
      var s := PickLightest(ds, a, k - 1, count);
      var b := a + [s];
      forall j, u | 0 <= j < k
        ensures Lpt.Load(ds', b, j, u) == Lpt.Load(ds, a, j, u)
      {
        SameLoad(ds, ds', a, b, j, u);
      }
      forall j | 0 <= j < k
        ensures Lpt.Lightest(ds', b, j, b[j], count)
      {
        assert j < k - 1 ==> Lpt.Lightest(ds, a, j, a[j], count);
        assert Lpt.Lightest(ds, a, j, b[j], count);
      }
      assert Lpt.Greedy(ds', b, count);
    }
  }

  lemma {:induction false} SameLoad(ds: seq<nat>, ds': seq<nat>, a: seq<nat>, b: seq<nat>, k: nat, s: nat)
    requires ds <= ds' && a <= b && k <= |a| && k <= |ds|
    ensures Lpt.Load(ds', b, k, s) == Lpt.Load(ds, a, k, s)
  {
    if k != 0 {
      SameLoad(ds, ds', a, b, k - 1, s);
    }
  }

  lemma {:induction false} PickLightest(ds: seq<nat>, a: seq<nat>, k: nat, count: nat) returns (s: nat)
    requires count >= 1 && k <= |ds| && k <= |a|
    ensures Lpt.Lightest(ds, a, k, s, count)
  {
    if count == 1 {
      s := 0;
    } else {
      s := PickLightest(ds, a, k, count - 1);
      if Lpt.Load(ds, a, k, count - 1) < Lpt.Load(ds, a, k, s) {
        s := count - 1;
      }
    }
  }

  // ----- commands

  function Ordinary(t: Target): Command {
    ["cargo", "test", "--locked", "-p", t.package, "--" + t.kind] + if t.kind != "lib" then [t.name] else []
  }

  /** The commands a target adds to its shard: its ordinary run, then any ignored contracts. */
  function CommandsFor(t: Target): seq<Command> {
    [Ordinary(t) + ["--", "--nocapture"]]
    + if t in IGNORED then
        [Ordinary(t) + (if t == COMPACT_SCALE then ["--release"] else [])
         + ["--", "--ignored", "--nocapture"] + IGNORED[t]]
      else []
  }

  function CommandsOf(ts: seq<Target>): seq<Command> {
    FlatMap(CommandsFor, ts)
  }

  /** The targets shard `index` of `count` must run, in the order it runs them. */
  ghost function ShardTargets(m: Metadata, index: int, count: int): Result<seq<Target>, Error> {
    if count < 1 || !(0 <= index < count) then Err(BadShard)
    else
      var found :- AllTargets(m);
      var ts := Sort(LongerFirst, Sort(TargetLe, found));
      var mine := Dealt(ts, Dealing(ts, count), |ts|, index);
      if mine == [] then Err(NoTargets) else Ok(Sort(TargetLe, mine))
  }

  method AppendCommands(before: seq<Command>, t: Target) returns (commands: seq<Command>)
    ensures commands == before + CommandsFor(t)
  {
    var command := ["cargo", "test", "--locked", "-p", t.package, "--" + t.kind];
    if t.kind != "lib" {
      command := command + [t.name];
    }
    assert command == Ordinary(t);
    commands := before + [command + ["--", "--nocapture"]];
    if t in IGNORED {
      var profile := if t == COMPACT_SCALE then ["--release"] else [];
      commands := commands + [command + profile + ["--", "--ignored", "--nocapture"] + IGNORED[t]];
    }
    assert commands == before + commands[|before|..];
  }

  method Commands(targets: seq<Target>) returns (commands: seq<Command>)
    ensures commands == CommandsOf(targets)
  {
    commands := [];
    for i := 0 to |targets|
      invariant commands == CommandsOf(targets[..i])
    {
      assert targets[..i + 1][..i] == targets[..i];
      commands := AppendCommands(commands, targets[i]);
    }
    assert targets[..|targets|] == targets;
  }

  method ShardCommands(m: Metadata, index: int, count: int) returns (r: Result<seq<Command>, Error>)
    ensures ShardTargets(m, index, count).Err? ==> r == Err(ShardTargets(m, index, count).error)
    ensures ShardTargets(m, index, count).Ok? ==> r == Ok(CommandsOf(ShardTargets(m, index, count).value))
  {
    if count < 1 || !(0 <= index < count) {
      return Err(BadShard);
    }
    var found := WorkspaceTargets(m);
    if found.Err? {
      return Err(found.error);
    }
    var ts := Sort(LongerFirst, found.value);
    ghost var a;
    var shards;
    shards, a := Deal(ts, count);
    GreedyUnique(ts, a, Dealing(ts, count), count, |ts|);
    assert a[..|ts|] == a && Dealing(ts, count)[..|ts|] == Dealing(ts, count);
    var targets := Sort(TargetLe, shards[index]);
    if targets == [] {
      assert |shards[index]| == 0;
      return Err(NoTargets);
    }
    assert shards[index] != [];
    var commands := Commands(targets);
    r := Ok(commands);
  }

  // ----- what the shards add up to

  /** The targets of the first `shards` shards among the first `k`, in no order. */
  function Pool(ts: seq<Target>, a: seq<nat>, k: nat, shards: nat): multiset<Target>
    requires k <= |ts| && k <= |a|
  {
    if shards == 0 then multiset{} else Pool(ts, a, k, shards - 1) + multiset(Dealt(ts, a, k, shards - 1))
  }

  lemma {:induction false} EmptyPool(ts: seq<Target>, a: seq<nat>, shards: nat)
    ensures Pool(ts, a, 0, shards) == multiset{}
  {
    if shards != 0 {
      EmptyPool(ts, a, shards - 1);
    }
  }

  lemma {:induction false} PoolGrows(ts: seq<Target>, a: seq<nat>, k: nat, shards: nat)
    requires 0 < k <= |ts| && k <= |a|
    ensures Pool(ts, a, k, shards)
         == Pool(ts, a, k - 1, shards) + if a[k - 1] < shards then multiset{ts[k - 1]} else multiset{}
  {
    if shards != 0 {
      PoolGrows(ts, a, k, shards - 1);
      DealtGrows(ts, a, k, shards - 1);
    }
  }

  lemma DealtGrows(ts: seq<Target>, a: seq<nat>, k: nat, s: nat)
    requires 0 < k <= |ts| && k <= |a|
    ensures multiset(Dealt(ts, a, k, s))
         == multiset(Dealt(ts, a, k - 1, s)) + if a[k - 1] == s then multiset{ts[k - 1]} else multiset{}
  {
  }

  /** Every target is dealt exactly once. */
  lemma {:induction false} DealtPartition(ts: seq<Target>, a: seq<nat>, count: nat, k: nat)
    requires |a| == |ts| && k <= |ts| && forall j :: 0 <= j < |a| ==> a[j] < count
    ensures Pool(ts, a, k, count) == multiset(ts[..k])
  {
    if k == 0 {
      EmptyPool(ts, a, count);
    } else {
      DealtPartition(ts, a, count, k - 1);
      PoolGrows(ts, a, k, count);
      LastTaken(ts, k);
    }
  }

  lemma LastTaken<T>(s: seq<T>, k: nat)
    requires 0 < k <= |s|
    ensures multiset(s[..k]) == multiset(s[..k - 1]) + multiset{s[k - 1]}
  {
    assert s[..k] == s[..k - 1] + [s[k - 1]];
  }

  ghost function DealingOrder(m: Metadata): seq<Target>
    requires AllTargets(m).Ok?
  {
    Sort(LongerFirst, Sort(TargetLe, AllTargets(m).value))
  }

  lemma ShardIsDealt(m: Metadata, index: int, count: int, mine: seq<Target>)
    ensures ShardTargets(m, index, count) == Ok(mine) ==>
              && 0 <= index < count && AllTargets(m).Ok?
              && var ts := DealingOrder(m); multiset(mine) == multiset(Dealt(ts, Dealing(ts, count), |ts|, index))
  {
  }

  ghost function Union(shards: seq<seq<Target>>): multiset<Target> {
    if shards == [] then multiset{} else Union(shards[..|shards| - 1]) + multiset(shards[|shards| - 1])
  }

  lemma {:induction false} UnionIsPool(shards: seq<seq<Target>>, ts: seq<Target>, a: seq<nat>)
    requires |a| == |ts|
    requires forall i :: 0 <= i < |shards| ==> multiset(shards[i]) == multiset(Dealt(ts, a, |ts|, i))
    ensures Union(shards) == Pool(ts, a, |ts|, |shards|)
  {
    if shards != [] {
      var n := |shards| - 1;
      UnionIsPool(shards[..n], ts, a);
      assert Union(shards) == Union(shards[..n]) + multiset(shards[n]);
      assert Pool(ts, a, |ts|, n + 1) == Pool(ts, a, |ts|, n) + multiset(Dealt(ts, a, |ts|, n));
    }
  }

  lemma {:induction false} UnionIsFlat(shards: seq<seq<Target>>)
    ensures Union(shards) == multiset(Flatten(shards))
  {
    if shards != [] {
      UnionIsFlat(shards[..|shards| - 1]);
    }
  }

  lemma DealingsAgree(shards: seq<seq<Target>>, whole: seq<Target>, ts: seq<Target>, a: seq<nat>, one: seq<nat>)
    requires Lpt.Assigns(a, |ts|, |shards|) && Lpt.Assigns(one, |ts|, 1)
    requires forall i :: 0 <= i < |shards| ==> multiset(shards[i]) == multiset(Dealt(ts, a, |ts|, i))
    requires multiset(whole) == multiset(Dealt(ts, one, |ts|, 0))
    ensures multiset(Flatten(shards)) == multiset(whole)
  {
    UnionIsPool(shards, ts, a);
    UnionIsFlat(shards);
    EveryTargetDealt(ts, a, |shards|);
    EveryTargetDealt(ts, one, 1);
    PoolOfOne(ts, one, |ts|);
  }

  lemma EveryTargetDealt(ts: seq<Target>, a: seq<nat>, count: nat)
    requires Lpt.Assigns(a, |ts|, count)
    ensures Pool(ts, a, |ts|, count) == multiset(ts)
  {
    DealtPartition(ts, a, count, |ts|);
    assert ts[..|ts|] == ts;
  }

  lemma PoolOfOne(ts: seq<Target>, a: seq<nat>, k: nat)
    requires k <= |ts| && k <= |a|
    ensures Pool(ts, a, k, 1) == multiset(Dealt(ts, a, k, 0))
  {
    assert Pool(ts, a, k, 1) == Pool(ts, a, k, 0) + multiset(Dealt(ts, a, k, 0));
  }

  /** If some shard of a split run has targets, so does the unsplit run. */
  lemma UnsplitReports(m: Metadata, count: int)
    ensures ShardTargets(m, 0, count).Ok? ==> ShardTargets(m, 0, 1).Ok?
  {
    if count >= 1 && AllTargets(m).Ok? {
      EmptyShard(m, 0, count);
      EmptyShard(m, 0, 1);
    }
  }

  /** The shards of any split run hold, between them, exactly the targets of the unsplit run. */
  lemma ShardsCoverEveryTarget(m: Metadata, count: int, shards: seq<seq<Target>>)
    requires |shards| == count >= 1
    requires forall i :: 0 <= i < count ==> ShardTargets(m, i, count) == Ok(shards[i])
    ensures ShardTargets(m, 0, 1).Ok?
    ensures multiset(Flatten(shards)) == multiset(ShardTargets(m, 0, 1).value)
  {
    assert ShardTargets(m, 0, count) == Ok(shards[0]);
    UnsplitReports(m, count);
    var whole := ShardTargets(m, 0, 1).value;
    var ts := DealingOrder(m);
    var a, one := Dealing(ts, count), Dealing(ts, 1);
    forall i | 0 <= i < count
      ensures multiset(shards[i]) == multiset(Dealt(ts, a, |ts|, i))
    {
      ShardIsDealt(m, i, count, shards[i]);
    }
    ShardIsDealt(m, 0, 1, whole);
    DealingsAgree(shards, whole, ts, a, one);
  }

  /** So whatever commands a target contributes (`CommandsFor`, say), the shards run, between
      them, exactly the commands of the unsplit run. */
  lemma ShardsCoverEveryCommand(m: Metadata, count: int, shards: seq<seq<Target>>, f: Target -> seq<Command>)
    requires |shards| == count >= 1
    requires forall i :: 0 <= i < count ==> ShardTargets(m, i, count) == Ok(shards[i])
    ensures ShardTargets(m, 0, 1).Ok?
    ensures multiset(FlatMap(s => FlatMap(f, s), shards)) == multiset(FlatMap(f, ShardTargets(m, 0, 1).value))
  {
    ShardsCoverEveryTarget(m, count, shards);
    FlatMapFlatten(f, shards);
    FlatMapPermute(f, Flatten(shards), ShardTargets(m, 0, 1).value);
  }

  /** A shard is refused as empty exactly when its index is not below the number of targets. */
  lemma EmptyShard(m: Metadata, index: int, count: int)
    requires 0 <= index < count && AllTargets(m).Ok?
    ensures ShardTargets(m, index, count) == Err(NoTargets) <==> |AllTargets(m).value| <= index
  {
    var ts := Sort(LongerFirst, Sort(TargetLe, AllTargets(m).value));
    var a := Dealing(ts, count);
    Lpt.ShardUsed(Durations(ts), a, count, |ts|, index);
    DealtCount(ts, a, |ts|, index);
  }

  lemma {:induction false} DealtCount(ts: seq<Target>, a: seq<nat>, k: nat, s: nat)
    requires k <= |ts| && k <= |a|
    ensures |Dealt(ts, a, k, s)| == Lpt.Count(a, k, s)
  {
    if k != 0 {
      DealtCount(ts, a, k - 1, s);
    }
  }

  /** A shard's total seconds. */
  function Seconds(ts: seq<Target>): nat {
    if ts == [] then 0 else Seconds(ts[..|ts| - 1]) + TypicalSeconds(ts[|ts| - 1])
  }

  lemma {:induction false} DealtSeconds(ts: seq<Target>, a: seq<nat>, k: nat, s: nat)
    requires k <= |ts| && k <= |a|
    ensures Seconds(Dealt(ts, a, k, s)) == Lpt.Load(Durations(ts), a, k, s)
  {
    if k != 0 {
      DealtSeconds(ts, a, k - 1, s);
      var before := Dealt(ts, a, k - 1, s);
      if a[k - 1] == s {
        assert Dealt(ts, a, k, s) == before + [ts[k - 1]];
        assert Dealt(ts, a, k, s)[..|before|] == before;
      } else {
        assert Dealt(ts, a, k, s) == before;
      }
    }
  }

  lemma DealtInOrder(found: seq<Target>)
    ensures SortedBy(LongerFirst, Sort(LongerFirst, found))
  {
    LongerFirstOrder();
    SortSorted(LongerFirst, found);
  }

  lemma DealtLongestFirst(found: seq<Target>)
    ensures Lpt.LongestFirst(Durations(Sort(LongerFirst, found)))
  {
    DealtInOrder(found);
    InOrderLongestFirst(Sort(LongerFirst, found));
  }

  lemma InOrderLongestFirst(ts: seq<Target>)
    requires SortedBy(LongerFirst, ts)
    ensures Lpt.LongestFirst(Durations(ts))
  {
    forall i, j | 0 <= i <= j < |ts|
      ensures TypicalSeconds(ts[j]) <= TypicalSeconds(ts[i])
    {
      assert i < j ==> LongerFirst(ts[i], ts[j]);
    }
  }

  /** Each shard's seconds are within 4/3 - 1/(3 count) of any way to deal the same targets. */
  lemma ShardsBalanced(found: seq<Target>, count: nat, shard: nat, other: seq<nat>)
    requires shard < count && Lpt.Assigns(other, |found|, count)
    ensures var ts := Sort(LongerFirst, Sort(TargetLe, found));
            3 * count * Seconds(Dealt(ts, Dealing(ts, count), |ts|, shard))
            <= (4 * count - 1) * Lpt.Makespan(Durations(ts), other, count)
  {
    var ts := Sort(LongerFirst, Sort(TargetLe, found));
    DealtLongestFirst(Sort(TargetLe, found));
    DealtSeconds(ts, Dealing(ts, count), |ts|, shard);
    Lpt.LptBoundOfShard(Durations(ts), Dealing(ts, count), other, count, shard);
  }

  /** The order in which cargo lists packages and targets does not change any shard. */
  lemma ListingOrderIrrelevant(m: Metadata, m': Metadata, index: int, count: int)
    requires AllTargets(m).Ok? && AllTargets(m').Ok?
    requires multiset(AllTargets(m).value) == multiset(AllTargets(m').value)
    ensures ShardTargets(m, index, count) == ShardTargets(m', index, count)
  {
    TargetOrder();
    var x, y := AllTargets(m).value, AllTargets(m').value;
    SortSorted(TargetLe, x);
    SortSorted(TargetLe, y);
    SortedUnique(TargetLe, Sort(TargetLe, x), Sort(TargetLe, y));
  }
}
