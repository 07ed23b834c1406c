/** What the shards of scripts/run_rust_test_shard.py run, from the workspace's metadata: every target
    of every member, once, or the first unsupported one refused. */
module ShardMeaning {
  import opened Results
  import opened Sorting
  import opened RustShards
  import Lpt

  // ----- discovery

  type Position = (nat, nat)

  /** The entry of a package of the workspace, and no build script. */
  predicate Wanted(m: Metadata, at: Position) {
    && at.0 < |m.packages| && at.1 < |m.packages[at.0].targets|
    && m.packages[at.0].id in m.members && m.packages[at.0].targets[at.1].kinds != ["custom-build"]
  }

  function KindsAt(m: Metadata, at: Position): seq<string>
    requires Wanted(m, at)
  {
    m.packages[at.0].targets[at.1].kinds
  }

  predicate OneKind(kinds: seq<string>) {
    kinds == ["lib"] || kinds == ["bin"] || kinds == ["test"] || kinds == ["bench"] || kinds == ["example"]
  }

  predicate Before(a: Position, b: Position) {
    a.0 < b.0 || (a.0 == b.0 && a.1 < b.1)
  }

  /** The target is the entry's: its package's name, its one kind and its own name. */
  predicate IsEntry(m: Metadata, at: Position, t: Target) {
    && Wanted(m, at) && KindsAt(m, at) == [t.kind] && OneKind([t.kind])
    && t.package == m.packages[at.0].name && t.name == m.packages[at.0].targets[at.1].name
  }

  /** The targets are the entries at these places, in the order cargo lists them. */
  predicate AreEntries(m: Metadata, places: seq<Position>, targets: seq<Target>) {
    && |places| == |targets|
    && (forall k :: 0 <= k < |places| ==> IsEntry(m, places[k], targets[k]))
    && (forall j, k :: 0 <= j < k < |places| ==> Before(places[j], places[k]))
  }

  /** The entry is the first that is not supported. */
  ghost predicate FirstUnsupported(m: Metadata, at: Position) {
    && Wanted(m, at) && !OneKind(KindsAt(m, at))
    && forall b: Position :: Wanted(m, b) && Before(b, at) ==> OneKind(KindsAt(m, b))
  }

  lemma SupportedExactly(kinds: seq<string>)
    ensures Supported(kinds) <==> OneKind(kinds)
  {
    if Supported(kinds) {
      assert kinds == [kinds[0]];
    }
  }

  /** Every wanted entry before `end` has a place. */
  ghost predicate AllBefore(m: Metadata, places: seq<Position>, end: Position) {
    forall at: Position :: at in places <==> Wanted(m, at) && Before(at, end)
  }

  /** The places of the entries before `end`, or the first that is not supported. */
  ghost predicate FoundUpTo(m: Metadata, end: Position, r: Result<seq<Target>, Error>, places: seq<Position>,
      bad: Position)
  {
    match r
    case Ok(targets) => AreEntries(m, places, targets) && AllBefore(m, places, end)
    case Err(e) => FirstUnsupported(m, bad) && Before(bad, end) && e == UnsupportedKind(KindsAt(m, bad))
  }

  function Joined(before: Result<seq<Target>, Error>, own: Result<seq<Target>, Error>): Result<seq<Target>, Error> {
    if before.Err? then before else if own.Err? then own else Ok(before.value + own.value)
  }

  /** One more entry of a package of the workspace. */
  lemma EntryStep(m: Metadata, i: nat, j: nat, before: seq<Target>, places: seq<Position>)
      returns (grown: seq<Position>)
    requires i < |m.packages| && j < |m.packages[i].targets| && m.packages[i].id in m.members
    requires AreEntries(m, places, before) && AllBefore(m, places, (i, j))
    ensures var t := m.packages[i].targets[j];
            var r := if t.kinds == ["custom-build"] then Ok(before)
                     else if !Supported(t.kinds) then Err(UnsupportedKind(t.kinds))
                     else Ok(before + [Target(m.packages[i].name, t.kinds[0], t.name)]);
            FoundUpTo(m, (i, j + 1), r, grown, (i, j))
  {
    var t := m.packages[i].targets[j];
    SupportedExactly(t.kinds);
    grown := places;
    forall at: Position
      ensures Before(at, (i, j + 1)) <==> Before(at, (i, j)) || at == (i, j)
    {
    }
    if t.kinds != ["custom-build"] {
      if Supported(t.kinds) {
        grown := places + [(i, j)];
        assert t.kinds == [t.kinds[0]];
        assert forall at: Position :: at in grown <==> at in places || at == (i, j);
      } else {
        AllOneKind(m, places, before, (i, j));
      }
    }
  }

  lemma AllOneKind(m: Metadata, places: seq<Position>, targets: seq<Target>, end: Position)
    requires AreEntries(m, places, targets) && AllBefore(m, places, end)
    ensures forall b: Position :: Wanted(m, b) && Before(b, end) ==> OneKind(KindsAt(m, b))
  {
    forall b: Position | Wanted(m, b) && Before(b, end)
      ensures OneKind(KindsAt(m, b))
    {
      assert b in places;
      var k :| 0 <= k < |places| && places[k] == b;
      assert IsEntry(m, places[k], targets[k]);
    }
  }

  lemma JoinedNext(p: Package, n: nat, before: Result<seq<Target>, Error>)
    requires n < |p.targets|
    ensures var t, now := p.targets[n], Joined(before, PackageTargets(p, n));
            Joined(before, PackageTargets(p, n + 1))
            == if now.Err? then now
               else if t.kinds == ["custom-build"] then now
               else if !Supported(t.kinds) then Err(UnsupportedKind(t.kinds))
               else Ok(now.value + [Target(p.name, t.kinds[0], t.name)])
  {
    if before.Ok? && PackageTargets(p, n + 1).Ok? && Supported(p.targets[n].kinds) {
      var own, t := PackageTargets(p, n).value, Target(p.name, p.targets[n].kinds[0], p.targets[n].name);
      assert before.value + (own + [t]) == before.value + own + [t];
    }
  }

  /** The entries before the j-th of the i-th package, one of the workspace's. */
  lemma {:induction false} PackageFinds(m: Metadata, i: nat, j: nat) returns (places: seq<Position>, bad: Position)
    requires i < |m.packages| && j <= |m.packages[i].targets| && m.packages[i].id in m.members
    ensures FoundUpTo(m, (i, j), Joined(Discovered(m, i), PackageTargets(m.packages[i], j)), places, bad)
    decreases i, j + 1
  {
    if j == 0 {
      places, bad := Finds(m, i);
      var found := Discovered(m, i);
      if found.Ok? {
        assert found.value + [] == found.value;
      }
    } else {
      places, bad := PackageFinds(m, i, j - 1);
      var now := Joined(Discovered(m, i), PackageTargets(m.packages[i], j - 1));
      JoinedNext(m.packages[i], j - 1, Discovered(m, i));
      if now.Ok? {
        places := EntryStep(m, i, j - 1, now.value, places);
        bad := (i, j - 1);
      }
    }
  }

  /** The entries of the first `i` packages. */
  lemma {:induction false} Finds(m: Metadata, i: nat) returns (places: seq<Position>, bad: Position)
    requires i <= |m.packages|
    ensures FoundUpTo(m, (i, 0), Discovered(m, i), places, bad)
    decreases i, 0
  {
    places, bad := [], (0, 0);
    if i != 0 {
      var p := m.packages[i - 1];
      if p.id in m.members {
        places, bad := PackageFinds(m, i - 1, |p.targets|);
        assert Discovered(m, i) == Joined(Discovered(m, i - 1), PackageTargets(p, |p.targets|));
      } else {
        places, bad := Finds(m, i - 1);
      }
    }
  }

  ghost predicate AreAllEntries(m: Metadata, places: seq<Position>, targets: seq<Target>) {
    AreEntries(m, places, targets) && forall at: Position :: Wanted(m, at) ==> at in places
  }

  /** The workspace's targets are exactly the entries wanted, each once and in the order listed, unless one
      of them is of no single kind known: then discovery is refused with the first one's kinds. */
  lemma DiscoveredExactly(m: Metadata)
    ensures AllTargets(m).Ok? <==> forall at: Position :: Wanted(m, at) ==> OneKind(KindsAt(m, at))
    ensures AllTargets(m).Ok? ==> exists places :: AreAllEntries(m, places, AllTargets(m).value)
    ensures AllTargets(m).Err? ==>
              exists at: Position :: FirstUnsupported(m, at) && AllTargets(m).error == UnsupportedKind(KindsAt(m, at))
  {
    var places, bad := Finds(m, |m.packages|);
    if AllTargets(m).Ok? {
      AllOneKind(m, places, AllTargets(m).value, (|m.packages|, 0));
      assert AreAllEntries(m, places, AllTargets(m).value);
    }
  }

  // ----- the order of targets

  /** Not above in code-point order. */
  ghost predicate Ascends(a: string, b: string) {
    a <= b || exists k: nat :: BelowAt(a, b, k)
  }

  ghost predicate TargetAscends(a: Target, b: Target) {
    if a.package != b.package then Ascends(a.package, b.package)
    else if a.kind != b.kind then Ascends(a.kind, b.kind)
    else Ascends(a.name, b.name)
  }

  lemma TargetLeExactly(a: Target, b: Target)
    ensures TargetLe(a, b) <==> TargetAscends(a, b)
  {
    StringLeExactly(a.package, b.package);
    StringLeExactly(a.kind, b.kind);
    StringLeExactly(a.name, b.name);
  }

  ghost predicate Ascending(ts: seq<Target>) {
    forall i, j :: 0 <= i < j < |ts| ==> TargetAscends(ts[i], ts[j])
  }

  /** Longest first, equal ones in order. */
  ghost predicate LongestAscending(ts: seq<Target>) {
    forall i, j :: 0 <= i < j < |ts| ==>
      TypicalSeconds(ts[j]) < TypicalSeconds(ts[i])
      || (TypicalSeconds(ts[i]) == TypicalSeconds(ts[j]) && TargetAscends(ts[i], ts[j]))
  }

  /** What the loop deals: `a` places each of the targets, longest first, on the lightest shard. */
  ghost predicate IsDealing(found: seq<Target>, ts: seq<Target>, a: seq<nat>, count: nat) {
    multiset(ts) == multiset(found) && LongestAscending(ts) && Lpt.Greedy(Durations(ts), a, count)
  }

  lemma DealtAscending(found: seq<Target>)
    ensures LongestAscending(Sort(LongerFirst, found)) && Ascending(Sort(TargetLe, found))
  {
    TargetOrder();
    SortSorted(TargetLe, found);
    DealtInOrder(found);
    var ts, mine := Sort(LongerFirst, found), Sort(TargetLe, found);
    forall i, j | 0 <= i < j < |ts|
      ensures LongerFirst(ts[i], ts[j]) && (TargetLe(ts[i], ts[j]) <==> TargetAscends(ts[i], ts[j]))
    {
      TargetLeExactly(ts[i], ts[j]);
    }
    forall i, j | 0 <= i < j < |mine|
      ensures TargetAscends(mine[i], mine[j])
    {
      TargetLeExactly(mine[i], mine[j]);
    }
  }

  // ----- the shards

  /** A shard's targets are those that such a dealing gives it, in order; it is refused when there is no such
      shard, when discovery is, and when it is dealt none. */
  lemma ShardExactly(m: Metadata, index: int, count: int)
    ensures ShardTargets(m, index, count) == Err(BadShard) <==> !(0 <= index < count)
    ensures 0 <= index < count && AllTargets(m).Err? ==> ShardTargets(m, index, count) == Err(AllTargets(m).error)
    ensures 0 <= index < count && AllTargets(m).Ok? ==>
              exists ts, a :: IsDealing(AllTargets(m).value, ts, a, count)
                && IsShardOf(ShardTargets(m, index, count), Dealt(ts, a, |ts|, index))
  {
    if 0 <= index < count && AllTargets(m).Ok? {
      var found := AllTargets(m).value;
      var ts := Sort(LongerFirst, Sort(TargetLe, found));
      DealtAscending(Sort(TargetLe, found));
      var a := Dealing(ts, count);
      DealtAscending(Dealt(ts, a, |ts|, index));
      assert IsDealing(found, ts, a, count);
      assert IsShardOf(ShardTargets(m, index, count), Dealt(ts, a, |ts|, index));
    }
    if AllTargets(m).Err? {
      DiscoveredExactly(m);
    }
  }

  ghost predicate IsShardOf(r: Result<seq<Target>, Error>, dealt: seq<Target>) {
    if dealt == [] then r == Err(NoTargets)
    else r.Ok? && multiset(r.value) == multiset(dealt) && Ascending(r.value)
  }

  /** The shards of a split run, all of them with targets, run every target of the workspace once. */
  lemma ShardsRunTheWorkspace(m: Metadata, count: int, shards: seq<seq<Target>>)
    requires |shards| == count >= 1
    requires forall i :: 0 <= i < count ==> ShardTargets(m, i, count) == Ok(shards[i])
    ensures exists places, targets ::
            AreAllEntries(m, places, targets) && multiset(Flatten(shards)) == multiset(targets)
  {
    assert ShardTargets(m, 0, count) == Ok(shards[0]);
    DiscoveredExactly(m);
    var ts := DealingOrder(m);
    var a := Dealing(ts, count);
    forall i | 0 <= i < count
      ensures multiset(shards[i]) == multiset(Dealt(ts, a, |ts|, i))
    {
      ShardIsDealt(m, i, count, shards[i]);
    }
    UnionIsPool(shards, ts, a);
    UnionIsFlat(shards);
    EveryTargetDealt(ts, a, count);
  }

  // ----- the commands

  /** A command that runs the target's tests in cargo: `options` after its name, `rest` for the tests. */
  predicate Runs(c: Command, t: Target, options: seq<string>, rest: seq<string>) {
    && |c| >= 6 && c[0] == "cargo" && c[1] == "test" && c[2] == "--locked" && c[3] == "-p" && c[4] == t.package
    && c[5] == "--" + t.kind
    && c[6..] == (if t.kind == "lib" then [] else [t.name]) + options + ["--"] + rest
  }

  lemma RunsSo(t: Target, options: seq<string>, rest: seq<string>)
    ensures Runs(Ordinary(t) + options + ["--"] + rest, t, options, rest)
  {
    var name := if t.kind == "lib" then [] else [t.name];
    assert (Ordinary(t) + options + ["--"] + rest)[6..] == name + options + ["--"] + rest;
  }

  /** Each target is run once as it is; one with ignored contracts is run once more for them alone, the scale
      cases optimized. */
  lemma CommandsExactly(t: Target)
    ensures |CommandsFor(t)| == if t in IGNORED then 2 else 1
    ensures Runs(CommandsFor(t)[0], t, [], ["--nocapture"])
    ensures t in IGNORED && t != COMPACT_SCALE ==>
              Runs(CommandsFor(t)[1], t, [], ["--ignored", "--nocapture"] + IGNORED[t])
    ensures t == COMPACT_SCALE ==>
              Runs(CommandsFor(t)[1], t, ["--release"], ["--ignored", "--nocapture"] + IGNORED[t])
  {
    RunsSo(t, [], ["--nocapture"]);
    assert Ordinary(t) + [] + ["--"] + ["--nocapture"] == Ordinary(t) + ["--", "--nocapture"];
    if t in IGNORED {
      var options := if t == COMPACT_SCALE then ["--release"] else [];
      var rest := ["--ignored", "--nocapture"] + IGNORED[t];
      RunsSo(t, options, rest);
      assert Ordinary(t) + options + ["--"] + rest
          == Ordinary(t) + options + ["--", "--ignored", "--nocapture"] + IGNORED[t];
    }
  }

  /** The commands of a shard are those of its targets, one target after another. */
  lemma {:induction false} CommandsInOrder(ts: seq<Target>, k: nat)
    requires k < |ts|
    ensures var n := |CommandsOf(ts[..k])|;
            n + |CommandsFor(ts[k])| <= |CommandsOf(ts)|
            && CommandsOf(ts)[n..n + |CommandsFor(ts[k])|] == CommandsFor(ts[k])
  {
    var n := |ts| - 1;
    if k < n {
      CommandsInOrder(ts[..n], k);
      assert ts[..n][..k] == ts[..k];
      var start, before := |CommandsOf(ts[..k])|, CommandsOf(ts[..n]);
      var end := start + |CommandsFor(ts[k])|;
      assert CommandsOf(ts) == before + CommandsFor(ts[n]);
      assert (before + CommandsFor(ts[n]))[start..end] == before[start..end];
    }
  }
}
