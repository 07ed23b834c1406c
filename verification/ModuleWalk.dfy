/** scripts/rust_test_reachability.py: the walk over module declarations, which may be cyclic. `P` are
    resolved paths and `N` names. */
module ModuleWalk {
  import opened Results
  import opened Delimiters
  import opened ModuleText

  /** The repository: the masked code of its files, and the path operations. */
  datatype World<!P, !N> = World(reader: Reader<P, N>, files: map<P, string>, under: P -> bool, join: (P, N) -> P,
      rs: (P, N) -> P, modRs: (P, N) -> P, isMod: P -> bool, parent: P -> P, stem: P -> P)

  /** A file's items; None when its delimiters do not match. */
  ghost function ItemsOf<P(!new), N(!new)>(w: World<P, N>, path: P): Option<Items<N>> {
    if path in w.files && Reads(w.reader) then Parsed(w.reader, path, w.files[path]) else None
  }

  datatype Key<T, P, N> = Key(target: T, path: P, dir: P, prefix: seq<N>)

  datatype Found<T, P, N> = Found(target: T, path: P, line: nat, name: seq<N>)

  /** Where a scope's modules are looked for: by name, and by `#[path]`. */
  datatype Place<P, N> = Place(modules: P, paths: P, prefix: seq<N>)

  function Inside<P, N>(w: World<P, N>, at: Place<P, N>, name: N, custom: Option<N>): Place<P, N> {
    var dir := if custom.Some? then w.join(at.paths, custom.value) else w.join(at.modules, name);
    Place(dir, dir, at.prefix + [name])
  }

  /** The one existing file a declaration can mean, and the directory of its own modules. */
  function Child<T, P(==), N>(w: World<P, N>, target: T, at: Place<P, N>, name: N,
      custom: Option<N>): (key: Option<Key<T, P, N>>)
    ensures key.Some? ==> key.value.path in w.files && key.value.target == target
  {
    var prefix := at.prefix + [name];
    if custom.Some? then
      var path := w.join(at.paths, custom.value);
      if path in w.files then Some(Key(target, path, w.parent(path), prefix)) else None
    else
      var byName, byDir := w.rs(at.modules, name), w.modRs(at.modules, name);
      if byName in w.files && byDir in w.files then None
      else if byName in w.files then
          Some(Key(target, byName, if w.isMod(byName) then w.parent(byName) else w.stem(byName), prefix))
      else if byDir in w.files then
          Some(Key(target, byDir, if w.isMod(byDir) then w.parent(byDir) else w.stem(byDir), prefix))
      else None
  }

  // ----- what a scope declares, by its text alone

  function Declared<T(==), P(==), N(==)>(w: World<P, N>, items: Items<N>, target: T, at: Place<P, N>): set<Key<T, P, N>>
    decreases items, 1
  {
    if items.End? then {} else DeclaredFirst(w, items, target, at) + Declared(w, items.rest, target, at)
  }

  function DeclaredFirst<T(==), P(==), N(==)>(w: World<P, N>, items: Items<N>, target: T,
      at: Place<P, N>): set<Key<T, P, N>>
    requires !items.End?
    decreases items, 0
  {
    match items
    case Function(_, _, _) => {}
    case Inline(name, custom, body, _) => Declared(w, body, target, Inside(w, at, name, custom))
    case External(name, custom, _) =>
      var child := Child(w, target, at, name, custom);
      if child.Some? then {child.value} else {}
  }

  function Defined<T(==), P(==), N(==)>(w: World<P, N>, items: Items<N>, target: T, path: P,
      at: Place<P, N>): set<Found<T, P, N>>
    decreases items, 1
  {
    if items.End? then {} else DefinedFirst(w, items, target, path, at) + Defined(w, items.rest, target, path, at)
  }

  function DefinedFirst<T(==), P(==), N(==)>(w: World<P, N>, items: Items<N>, target: T, path: P,
      at: Place<P, N>): set<Found<T, P, N>>
    requires !items.End?
    decreases items, 0
  {
    match items
    case Function(line, name, _) => {Found(target, path, line, at.prefix + [name])}
    case Inline(name, custom, body, _) => Defined(w, body, target, path, Inside(w, at, name, custom))
    case External(_, _, _) => {}
  }

  function PlaceOf<T, P, N>(w: World<P, N>, key: Key<T, P, N>): Place<P, N> {
    Place(key.dir, w.parent(key.path), key.prefix)
  }

  /** The files that a file declares, and the functions it defines, by its text alone. */
  ghost function Children<T, P(!new), N(!new)>(w: World<P, N>, key: Key<T, P, N>): set<Key<T, P, N>> {
    match ItemsOf(w, key.path)
    case None => {}
    case Some(items) => Declared(w, items, key.target, PlaceOf(w, key))
  }

  ghost function Functions<T, P(!new), N(!new)>(w: World<P, N>, key: Key<T, P, N>): set<Found<T, P, N>> {
    match ItemsOf(w, key.path)
    case None => {}
    case Some(items) => Defined(w, items, key.target, key.path, PlaceOf(w, key))
  }

  /** Module declarations lead from a target's root file to `key`, through files of the repository that
      are all different. */
  ghost predicate Chain<T(!new), P(!new), N(!new)>(w: World<P, N>, roots: set<Key<T, P, N>>, chain: seq<Key<T, P, N>>,
      key: Key<T, P, N>)
  {
    && chain != [] && chain[0] in roots && chain[|chain| - 1] == key
    && (forall i: nat :: i < |chain| ==> w.under(chain[i].path))
    && (forall i: nat, j: nat :: Link(w, chain, i, j))
  }

  /** The next file of a chain is one the file declares, and no file comes twice. */
  ghost predicate Link<T, P(!new), N(!new)>(w: World<P, N>, chain: seq<Key<T, P, N>>, i: nat, j: nat) {
    i < j < |chain| ==> chain[i].path != chain[j].path && (j == i + 1 ==> chain[j] in Children(w, chain[i]))
  }

  function Paths<T, P, N>(chain: seq<Key<T, P, N>>): (paths: set<P>)
    ensures forall k :: k in chain ==> k.path in paths
  {
    if chain == [] then {} else Paths(chain[..|chain| - 1]) + {chain[|chain| - 1].path}
  }

  lemma {:induction false} PathNotIn<T, P, N>(chain: seq<Key<T, P, N>>, path: P)
    requires forall i :: 0 <= i < |chain| ==> chain[i].path != path
    ensures path !in Paths(chain)
  {
    if chain != [] {
      PathNotIn(chain[..|chain| - 1], path);
    }
  }

  /** A declared file that is not above is one more link. */
  lemma Longer<T(!new), P(!new), N(!new)>(w: World<P, N>, roots: set<Key<T, P, N>>, above: seq<Key<T, P, N>>,
      key: Key<T, P, N>)
    requires key.path !in Paths(above) && w.under(key.path)
    requires if above == [] then key in roots
             else Chain(w, roots, above, above[|above| - 1]) && key in Children(w, above[|above| - 1])
    ensures Chain(w, roots, above + [key], key) && Paths(above + [key]) == Paths(above) + {key.path}
  {
    var chain := above + [key];
    assert chain[..|above|] == above;
    forall i: nat, j: nat
      ensures Link(w, chain, i, j)
    {
      LongerLink(w, above, key, i, j);
    }
  }

  lemma LongerLink<T, P(!new), N(!new)>(w: World<P, N>, above: seq<Key<T, P, N>>, key: Key<T, P, N>, i: nat, j: nat)
    requires key.path !in Paths(above) && Link(w, above, i, j)
    requires above != [] ==> key in Children(w, above[|above| - 1])
    ensures Link(w, above + [key], i, j)
  {
    if j == |above| && i < j {
      assert above[i] in above;
    }
  }

  lemma ItemsOfFile<T, P(!new), N(!new)>(w: World<P, N>, key: Key<T, P, N>, items: Items<N>)
    requires ItemsOf(w, key.path) == Some(items)
    ensures Functions(w, key) == Defined(w, items, key.target, key.path, PlaceOf(w, key))
    ensures Children(w, key) == Declared(w, items, key.target, PlaceOf(w, key))
  {
  }

  /** A file's delimiters, each opener with its closer; None when they do not match. */
  method Delimit<P(!new, ==), N(!new)>(w: World<P, N>, path: P) returns (pairs: Option<map<nat, nat>>)
    requires Reads(w.reader) && path in w.files
    ensures pairs.None? ==> ItemsOf(w, path) == None
    ensures pairs.Some? ==>
              var code, m := w.files[path], pairs.value;
              Closed(code, m, 0, |code|) && Nested(m)
                && ItemsOf(w, path) == Some(ItemsFrom(w.reader, path, code, m, 0, 0, |code|, []))
  {
    var r := Pairs(Tokens(w.files[path]));
    if r.Err? {
      return None;
    }
    CodeClosed(w.files[path], r.value);
    pairs := Some(r.value);
  }

  class Walk<T(!new, ==), P(!new, ==), N(!new, ==)> {
    const w: World<P, N>
    ghost const roots: set<Key<T, P, N>>
    var visited: set<Key<T, P, N>>
    var functions: set<Found<T, P, N>>
    /** The declarations by which each visited file was first reached. */
    ghost var chains: map<Key<T, P, N>, seq<Key<T, P, N>>>

    constructor (w: World<P, N>, ghost roots: set<Key<T, P, N>>)
      ensures this.w == w && this.roots == roots && visited == {} && functions == {} && Valid({})
    {
      this.w, this.roots, visited, functions, chains := w, roots, {}, {}, map[];
    }

    /** The walk need not go to `child` from a file with these files above it. */
    predicate Settled(child: Key<T, P, N>, above: set<P>, visited: set<Key<T, P, N>>) {
      !w.under(child.path) || child in visited || child.path in above
    }

    ghost predicate AllSettled(children: set<Key<T, P, N>>, above: set<P>, visited: set<Key<T, P, N>>) {
      forall child :: child in children ==> Settled(child, above, visited)
    }

    ghost predicate Done(key: Key<T, P, N>, above: set<P>)
      reads this
    {
      Functions(w, key) <= functions && AllSettled(Children(w, key), above, visited)
    }

    ghost predicate Recorded(f: Found<T, P, N>)
      reads this
    {
      exists key :: key in visited && f in Functions(w, key)
    }

    /** `open` are the files the walk is still in. */
    ghost predicate Valid(open: set<Key<T, P, N>>)
      reads this
    {
      && chains.Keys == visited
      && (forall key :: key in visited ==> Chain(w, roots, chains[key], key))
      && (forall key :: key in visited && key !in open ==> Done(key, Paths(chains[key])))
      && (forall f :: f in functions ==> Recorded(f))
    }

    /** Nothing is open, and every root file of the repository was visited. */
    ghost predicate Finished()
      reads this
    {
      Valid({}) && forall key :: key in roots && w.under(key.path) ==> key in visited
    }

    twostate predicate Grows()
      reads this
    {
      && old(visited) <= visited && old(functions) <= functions
      && forall key :: key in old(visited) ==> key in old(chains) && key in chains && chains[key] == old(chains)[key]
    }

    /** `file`. It ends on every module graph, cyclic ones too: each file it goes into is one more of
        those above. */
    method File(key: Key<T, P, N>, ancestors: set<P>, ghost above: seq<Key<T, P, N>>, ghost open: set<Key<T, P, N>>)
      requires Reads(w.reader) && Valid(open) && key.path in w.files && ancestors == Paths(above)
      requires if above == [] then key in roots
               else Chain(w, roots, above, above[|above| - 1]) && key in Children(w, above[|above| - 1])
      modifies this
      ensures Valid(open) && Grows() && Settled(key, ancestors, visited)
      decreases |w.files.Keys - ancestors|, 0, 0
    {
      if !w.under(key.path) || key in visited || key.path in ancestors {
        return;
      }
      ghost var chain := above + [key];
      Longer(w, roots, above, key);
      Enter(key, chain, open);
      var pairs := Delimit(w, key.path);
      if pairs.Some? {
        var code := w.files[key.path];
        ItemsOfFile(w, key, ItemsFrom(w.reader, key.path, code, pairs.value, 0, 0, |code|, []));
        Fewer(w.files.Keys, ancestors, key.path);
        Scope(code, pairs.value, 0, |code|, key, PlaceOf(w, key), ancestors + {key.path}, chain, open + {key});
      }
      Leave(key, open);
    }

    /** The walk from a target's root file. */
    method Root(key: Key<T, P, N>)
      requires Reads(w.reader) && Valid({}) && key.path in w.files && key in roots
      modifies this
      ensures Valid({}) && Grows() && (w.under(key.path) ==> key in visited)
    {
      assert Paths<T, P, N>([]) == {};
      File(key, {}, [], {});
    }

    method Roots(targets: seq<(T, P)>)
      requires Reads(w.reader) && Valid({}) && roots == RootsOf(w, targets)
      requires forall i :: 0 <= i < |targets| ==> targets[i].1 in w.files
      modifies this
      ensures Valid({}) && RootsVisited(w, targets, |targets|, visited)
    {
      for i := 0 to |targets|
        invariant Valid({}) && RootsVisited(w, targets, i, visited)
      {
        ghost var before := visited;
        RootListed(w, targets, i);
        Root(RootOf(w, targets[i]));
        OneMoreVisited(w, targets, i, before, visited);
      }
    }

    /** The walk leaves a file once it is done with it. */
    ghost method Leave(key: Key<T, P, N>, open: set<Key<T, P, N>>)
      requires Valid(open + {key}) && key in visited && Done(key, Paths(chains[key]))
      ensures Valid(open)
    {
    }

    method Enter(key: Key<T, P, N>, ghost chain: seq<Key<T, P, N>>, ghost open: set<Key<T, P, N>>)
      requires Valid(open) && key !in visited && Chain(w, roots, chain, key)
      modifies `visited, `chains
      ensures Valid(open + {key}) && Grows()
      ensures visited == old(visited) + {key} && chains == old(chains)[key := chain]
    {
      visited, chains := visited + {key}, chains[key := chain];
    }

    method Record(f: Found<T, P, N>, ghost key: Key<T, P, N>, ghost open: set<Key<T, P, N>>)
      requires Valid(open) && key in visited && f in Functions(w, key)
      modifies `functions
      ensures Valid(open) && Grows() && functions == old(functions) + {f}
    {
      functions := functions + {f};
    }

    /** The items of a scope are the file's. */
    ghost predicate Belong(items: Items<N>, key: Key<T, P, N>, at: Place<P, N>) {
      Defined(w, items, key.target, key.path, at) <= Functions(w, key)
        && Declared(w, items, key.target, at) <= Children(w, key)
    }

    /** What `items` define is recorded, and what they declare is settled, but for those of `rest`. */
    ghost predicate Handled(items: Items<N>, rest: Items<N>, key: Key<T, P, N>, at: Place<P, N>, ancestors: set<P>,
        settled: set<Key<T, P, N>>, functions: set<Found<T, P, N>>, visited: set<Key<T, P, N>>)
    {
      && Defined(w, items, key.target, key.path, at) <= functions + Defined(w, rest, key.target, key.path, at)
      && Declared(w, items, key.target, at) <= settled + Declared(w, rest, key.target, at)
      && AllSettled(settled, ancestors, visited)
    }

    /** Once the first item is recorded and settled, the rest is still to come. */
    lemma HandledFirst(items: Items<N>, now: Items<N>, key: Key<T, P, N>, at: Place<P, N>, ancestors: set<P>,
        settled: set<Key<T, P, N>>, functions: set<Found<T, P, N>>, visited: set<Key<T, P, N>>,
        functions': set<Found<T, P, N>>, visited': set<Key<T, P, N>>)
      requires !now.End? && Handled(items, now, key, at, ancestors, settled, functions, visited)
      requires functions <= functions' && visited <= visited'
      requires DefinedFirst(w, now, key.target, key.path, at) <= functions'
      requires AllSettled(DeclaredFirst(w, now, key.target, at), ancestors, visited')
      ensures Handled(items, now.rest, key, at, ancestors, settled + DeclaredFirst(w, now, key.target, at), functions',
                      visited')
    {
    }

    lemma BelongFirst(now: Items<N>, key: Key<T, P, N>, at: Place<P, N>)
      requires !now.End? && Belong(now, key, at)
      ensures Belong(now.rest, key, at)
      ensures DefinedFirst(w, now, key.target, key.path, at) <= Functions(w, key)
      ensures DeclaredFirst(w, now, key.target, at) <= Children(w, key)
    {
    }

    /** `scope`. It ends, as every scope inside is shorter and every file it goes into is one more of
        those above. */
    method Scope(code: string, m: map<nat, nat>, start: nat, end: nat, key: Key<T, P, N>, at: Place<P, N>,
        ancestors: set<P>,
        ghost chain: seq<Key<T, P, N>>, ghost open: set<Key<T, P, N>>)
      requires Reads(w.reader) && Closed(code, m, start, end) && Nested(m)
      requires Valid(open) && key in open && key in visited && ancestors == Paths(chain) && Chain(w, roots, chain, key)
      requires Belong(ItemsFrom(w.reader, key.path, code, m, start, start, end, []), key, at)
      modifies this
      ensures Valid(open) && Grows()
      ensures var items := ItemsFrom(w.reader, key.path, code, m, start, start, end, []);
              Defined(w, items, key.target, key.path, at) <= functions
                && AllSettled(Declared(w, items, key.target, at), ancestors, visited)
      decreases |w.files.Keys - ancestors|, 1 + end - start, 2
    {
      var cursor, attributes := start, [];
      ghost var items := ItemsFrom(w.reader, key.path, code, m, start, start, end, []);
      ghost var rest := items;
      ghost var settled: set<Key<T, P, N>> := {};
      while cursor < end
        invariant start <= cursor <= end && Closed(code, m, cursor, end)
        invariant Valid(open) && Grows() && key in visited
        invariant rest == ItemsFrom(w.reader, key.path, code, m, start, cursor, end, attributes)
        invariant Belong(rest, key, at) && Handled(items, rest, key, at, ancestors, settled, functions, visited)
        decreases end - cursor
      {
        var step := Advance(w.reader, key.path, code, m, start, cursor, end, attributes);
        match step {
          case NoMore =>
            return;
          case Past(next, given) =>
            cursor, attributes := next, given;
          case OneItem(stop, next) =>
            rest := ItemsFrom(w.reader, key.path, code, m, start, next, end, []);
            settled := Item(code, m, start, cursor, stop, end, attributes, key, at, ancestors, items, rest, settled,
                            chain, open);
            cursor, attributes := next, [];
        }
      }
    }

    /** One item of a scope, `now`, if it is one. */
    method Item(code: string, m: map<nat, nat>, start: nat, item: nat, stop: nat, end: nat, attributes: seq<string>,
        key: Key<T, P, N>, at: Place<P, N>, ancestors: set<P>, ghost items: Items<N>, ghost rest: Items<N>,
        ghost settled: set<Key<T, P, N>>, ghost chain: seq<Key<T, P, N>>, ghost open: set<Key<T, P, N>>)
        returns (ghost more: set<Key<T, P, N>>)
      requires Reads(w.reader) && item <= stop < end && Closed(code, m, stop, end) && Nested(m)
      requires Valid(open) && key in open && key in visited && ancestors == Paths(chain) && Chain(w, roots, chain, key)
      requires Belong(ItemAt(w.reader, key.path, code, m, start, item, stop, end, attributes, rest), key, at)
      requires Handled(items, ItemAt(w.reader, key.path, code, m, start, item, stop, end, attributes, rest), key, at,
                       ancestors, settled, functions, visited)
      modifies this
      ensures Valid(open) && Grows()
      ensures Belong(rest, key, at) && Handled(items, rest, key, at, ancestors, more, functions, visited)
      decreases |w.files.Keys - ancestors|, 1 + end - stop, 1
    {
      ghost var now := ItemAt(w.reader, key.path, code, m, start, item, stop, end, attributes, rest);
      more := settled;
      var kind := Classify(w.reader, key.path, code, m, start, item, stop, end, attributes, rest);
      if kind.Skipped? {
        return;
      }
      BelongFirst(now, key, at);
      if kind.Defines? {
        Record(Found(key.target, key.path, kind.line, at.prefix + [kind.name]), key, open);
      } else {
        Declaration(code, m, stop, end, kind.name, kind.custom, key, at, ancestors, now, rest, chain, open);
      }
      HandledFirst(items, now, key, at, ancestors, settled, old(functions), old(visited), functions, visited);
      more := settled + DeclaredFirst(w, now, key.target, at);
    }

    /** A module declared in place, or in a file of its own. */
    method Declaration(code: string, m: map<nat, nat>, stop: nat, end: nat, name: N, custom: Option<N>,
        key: Key<T, P, N>, at: Place<P, N>, ancestors: set<P>, ghost now: Items<N>, ghost rest: Items<N>,
        ghost chain: seq<Key<T, P, N>>, ghost open: set<Key<T, P, N>>)
      requires Reads(w.reader) && stop < end && Closed(code, m, stop, end) && Nested(m)
      requires Valid(open) && key in open && key in visited && ancestors == Paths(chain) && Chain(w, roots, chain, key)
      requires now == DeclarationAt(w.reader, key.path, code, m, stop, end, name, custom, rest)
      requires DefinedFirst(w, now, key.target, key.path, at) <= Functions(w, key)
      requires DeclaredFirst(w, now, key.target, at) <= Children(w, key)
      modifies this
      ensures Valid(open) && Grows()
      ensures DefinedFirst(w, now, key.target, key.path, at) <= functions
      ensures AllSettled(DeclaredFirst(w, now, key.target, at), ancestors, visited)
      decreases |w.files.Keys - ancestors|, 1 + end - stop, 0
    {
      if code[stop] == '{' {
        InsideClosed(code, m, stop, stop, end);
        Scope(code, m, stop + 1, m[stop], key, Inside(w, at, name, custom), ancestors, chain, open);
      } else {
        var child := Child(w, key.target, at, name, custom);
        if child.Some? {
          File(child.value, ancestors, chain, open);
        }
      }
    }
  }

  lemma Fewer<P>(all: set<P>, above: set<P>, path: P)
    requires path in all && path !in above
    ensures |all - (above + {path})| < |all - above|
  {
    assert all - above == (all - (above + {path})) + {path};
  }

  /** The file of a target, from which its modules are named. */
  function RootOf<T, P, N>(w: World<P, N>, target: (T, P)): Key<T, P, N> {
    Key(target.0, target.1, w.parent(target.1), [])
  }

  function RootsOf<T(==), P(==), N(==)>(w: World<P, N>, targets: seq<(T, P)>): set<Key<T, P, N>> {
    set target | target in targets :: RootOf(w, target)
  }

  /** The first `n` targets' root files were visited, those of the repository. */
  ghost predicate RootsVisited<T, P, N>(w: World<P, N>, targets: seq<(T, P)>, n: nat, visited: set<Key<T, P, N>>)
    requires n <= |targets|
  {
    forall j :: 0 <= j < n ==> RootVisited(w, targets[j], visited)
  }

  predicate RootVisited<T(==), P(==), N(==)>(w: World<P, N>, target: (T, P), visited: set<Key<T, P, N>>) {
    w.under(target.1) ==> RootOf(w, target) in visited
  }

  lemma RootListed<T, P, N>(w: World<P, N>, targets: seq<(T, P)>, i: nat)
    requires i < |targets|
    ensures RootOf(w, targets[i]) in RootsOf(w, targets)
  {
    assert targets[i] in targets;
  }

  lemma OneMoreVisited<T, P, N>(w: World<P, N>, targets: seq<(T, P)>, i: nat, before: set<Key<T, P, N>>,
      visited: set<Key<T, P, N>>)
    requires i < |targets| && RootsVisited(w, targets, i, before) && before <= visited
    requires RootVisited(w, targets[i], visited)
    ensures RootsVisited(w, targets, i + 1, visited)
  {
    forall j | 0 <= j < i
      ensures RootVisited(w, targets[j], visited)
    {
      assert RootVisited(w, targets[j], before);
    }
  }

  lemma AllRootsVisited<T(!new), P(!new), N(!new)>(w: World<P, N>, targets: seq<(T, P)>, visited: set<Key<T, P, N>>)
    requires RootsVisited(w, targets, |targets|, visited)
    ensures forall key :: key in RootsOf(w, targets) && w.under(key.path) ==> key in visited
  {
    forall key | key in RootsOf(w, targets) && w.under(key.path)
      ensures key in visited
    {
      var j :| 0 <= j < |targets| && key == RootOf(w, targets[j]);
      assert RootVisited(w, targets[j], visited);
    }
  }

  /** The walk over every target. */
  method WalkTargets<T(!new, ==), P(!new, ==), N(!new, ==)>(w: World<P, N>, targets: seq<(T, P)>)
      returns (walk: Walk<T, P, N>)
    requires Reads(w.reader) && forall i :: 0 <= i < |targets| ==> targets[i].1 in w.files
    ensures fresh(walk) && walk.w == w && walk.roots == RootsOf(w, targets) && walk.Finished()
  {
    walk := new Walk(w, RootsOf(w, targets));
    walk.Roots(targets);
    AllRootsVisited(w, targets, walk.visited);
  }

  // ----- what the walk cannot miss

  predicate Names<N(==)>(items: Items<N>, name: N) {
    match items
    case End => false
    case Function(_, _, rest) => Names(rest, name)
    case Inline(n, _, _, rest) => n == name || Names(rest, name)
    case External(n, _, rest) => n == name || Names(rest, name)
  }

  /** No scope declares two modules of one name. */
  predicate NamedOnce<N(==)>(items: Items<N>) {
    match items
    case End => true
    case Function(_, _, rest) => NamedOnce(rest)
    case Inline(name, _, body, rest) => !Names(rest, name) && NamedOnce(body) && NamedOnce(rest)
    case External(name, _, rest) => !Names(rest, name) && NamedOnce(rest)
  }

  /** `t` is a scope of `items` from some item on: the scope itself, or one inside. */
  ghost predicate PartOf<N(!new)>(items: Items<N>, t: Items<N>) {
    || t == items
    || (items.Inline? && PartOf(items.body, t))
    || (!items.End? && PartOf(items.rest, t))
  }

  /** `u` is the same scope as `t` from the same item on or a later one. */
  ghost predicate RestOf<N(!new)>(t: Items<N>, u: Items<N>) {
    u == t || (!t.End? && RestOf(t.rest, u))
  }

  ghost predicate Repeats<N(!new)>(t: Items<N>, u: Items<N>) {
    (t.Inline? || t.External?) && (u.Inline? || u.External?) && RestOf(t.rest, u) && t.name == u.name
  }

  lemma {:induction false} NamesExactly<N(!new)>(items: Items<N>, name: N)
    ensures Names(items, name) <==> exists u :: RestOf(items, u) && (u.Inline? || u.External?) && u.name == name
  {
    if !items.End? {
      NamesExactly(items.rest, name);
      assert RestOf(items, items);
    }
  }

  /** No module of any scope has the name of a later one of it. */
  ghost predicate NoneRepeats<N(!new)>(items: Items<N>) {
    forall t, u :: PartOf(items, t) ==> !Repeats(t, u)
  }

  lemma NoneRepeatsFirst<N(!new)>(items: Items<N>)
    requires !items.End?
    ensures NoneRepeats(items)
            <==> NoneRepeats(items.rest) && (items.Inline? ==> NoneRepeats(items.body)) && forall u ::
              !Repeats(items, u)
  {
    assert PartOf(items, items);
    if NoneRepeats(items) {
      forall t, u | PartOf(items.rest, t) || (items.Inline? && PartOf(items.body, t))
        ensures !Repeats(t, u)
      {
        assert PartOf(items, t);
      }
    }
  }

  lemma {:induction false} NamedOnceExactly<N(!new)>(items: Items<N>)
    ensures NamedOnce(items) <==> NoneRepeats(items)
  {
    if !items.End? {
      NoneRepeatsFirst(items);
      NamedOnceExactly(items.rest);
      if !items.Function? {
        NamesExactly(items.rest, items.name);
        if u :| RestOf(items.rest, u) && (u.Inline? || u.External?) && u.name == items.name {
          assert Repeats(items, u);
        }
      }
      if items.Inline? {
        NamedOnceExactly(items.body);
      }
    }
  }

  /** What a scope declares is named by it and what is inside it. */
  lemma {:induction false} DeclaredNames<T, P, N>(w: World<P, N>, items: Items<N>, target: T, at: Place<P, N>,
      key: Key<T, P, N>)
    requires key in Declared(w, items, target, at)
    ensures key.target == target && at.prefix <= key.prefix && |at.prefix| < |key.prefix|
    ensures Names(items, key.prefix[|at.prefix|])
    decreases items
  {
    if key in Declared(w, items.rest, target, at) {
      DeclaredNames(w, items.rest, target, at, key);
    } else if items.Inline? {
      DeclaredNames(w, items.body, target, Inside(w, at, items.name, items.custom), key);
    }
  }

  lemma FirstNamed<T, P, N>(w: World<P, N>, items: Items<N>, target: T, at: Place<P, N>, key: Key<T, P, N>)
    requires !items.End? && key in DeclaredFirst(w, items, target, at)
    ensures !items.Function? && at.prefix <= key.prefix && |at.prefix| < |key.prefix|
            && key.prefix[|at.prefix|] == items.name
  {
    if items.Inline? {
      DeclaredNames(w, items.body, target, Inside(w, at, items.name, items.custom), key);
    }
  }

  /** Two files a scope declares are at module paths neither of which begins with the other. */
  lemma {:induction false} PrefixFree<T, P, N>(
      w: World<P, N>, items: Items<N>, target: T, at: Place<P, N>, a: Key<T, P, N>, b: Key<T, P, N>)
    requires NamedOnce(items) && a.prefix <= b.prefix
    requires a in Declared(w, items, target, at) && b in Declared(w, items, target, at)
    ensures a == b
    decreases items
  {
    DeclaredNames(w, items, target, at, a);
    assert a.prefix[|at.prefix|] == b.prefix[|at.prefix|];
    var first, later := DeclaredFirst(w, items, target, at), Declared(w, items.rest, target, at);
    if a in later && b in later {
      PrefixFree(w, items.rest, target, at, a, b);
    } else if a in first && b in first {
      if items.Inline? {
        PrefixFree(w, items.body, target, Inside(w, at, items.name, items.custom), a, b);
      }
    } else {
      var one, other := if a in first then a else b, if a in first then b else a;
      FirstNamed(w, items, target, at, one);
      DeclaredNames(w, items.rest, target, at, other);
      assert false;
    }
  }

  /** In every file each scope names its modules once, and each target has one root file. */
  ghost predicate Unambiguous<T(!new), P(!new), N(!new)>(w: World<P, N>, roots: set<Key<T, P, N>>) {
    && (forall path :: ItemsOf(w, path).Some? ==> NamedOnce(ItemsOf(w, path).value))
    && (forall a, b :: a in roots && b in roots && a.target == b.target ==> a == b)
  }

  lemma ChildrenApart<T, P(!new), N(!new)>(w: World<P, N>, key: Key<T, P, N>, a: Key<T, P, N>, b: Key<T, P, N>)
    requires forall path :: ItemsOf(w, path).Some? ==> NamedOnce(ItemsOf(w, path).value)
    requires a in Children(w, key) && b in Children(w, key)
    requires a.prefix <= b.prefix || b.prefix <= a.prefix
    ensures a == b
  {
    if a.prefix <= b.prefix {
      PrefixFree(w, ItemsOf(w, key.path).value, key.target, PlaceOf(w, key), a, b);
    } else {
      PrefixFree(w, ItemsOf(w, key.path).value, key.target, PlaceOf(w, key), b, a);
    }
  }

  /** Module paths grow along a chain, and the target stays. */
  lemma {:induction false} ChainGrows<T(!new), P(!new), N(!new)>(
      w: World<P, N>, roots: set<Key<T, P, N>>, chain: seq<Key<T, P, N>>, key: Key<T, P, N>, i: nat)
    requires Chain(w, roots, chain, key) && i < |chain|
    ensures chain[i].target == key.target && chain[i].prefix <= key.prefix
    ensures i < |chain| - 1 ==> |chain[i].prefix| < |key.prefix|
    decreases |chain| - i
  {
    if i < |chain| - 1 {
      ChainGrows(w, roots, chain, key, i + 1);
      assert Link(w, chain, i, i + 1);
      var at := PlaceOf(w, chain[i]);
      DeclaredNames(w, ItemsOf(w, chain[i].path).value, chain[i].target, at, chain[i + 1]);
    }
  }

  /** Two chains to one file go the same way. */
  lemma {:induction false} SameWay<T(!new), P(!new), N(!new)>(
      w: World<P, N>, roots: set<Key<T, P, N>>, a: seq<Key<T, P, N>>, b: seq<Key<T, P, N>>, key: Key<T, P, N>, i: nat)
    requires Unambiguous(w, roots) && Chain(w, roots, a, key) && Chain(w, roots, b, key) && i < |a|
    ensures i < |b| && a[i] == b[i]
  {
    ChainGrows(w, roots, a, key, i);
    if i == 0 {
      ChainGrows(w, roots, b, key, 0);
    } else {
      SameWay(w, roots, a, b, key, i - 1);
      ChainGrows(w, roots, a, key, i - 1);
      if i == |b| {
        assert false;
      }
      ChainGrows(w, roots, b, key, i);
      assert Link(w, a, i - 1, i) && Link(w, b, i - 1, i);
      ChildrenApart(w, a[i - 1], a[i], b[i]);
    }
  }

  lemma OneChain<T(!new), P(!new), N(!new)>(
      w: World<P, N>, roots: set<Key<T, P, N>>, a: seq<Key<T, P, N>>, b: seq<Key<T, P, N>>, key: Key<T, P, N>)
    requires Unambiguous(w, roots) && Chain(w, roots, a, key) && Chain(w, roots, b, key)
    ensures a == b
  {
    SameWay(w, roots, a, b, key, |a| - 1);
    SameWay(w, roots, b, a, key, |b| - 1);
    forall i | 0 <= i < |a|
      ensures a[i] == b[i]
    {
      SameWay(w, roots, a, b, key, i);
    }
  }

  lemma Shorter<T(!new), P(!new), N(!new)>(
      w: World<P, N>, roots: set<Key<T, P, N>>, chain: seq<Key<T, P, N>>, key: Key<T, P, N>)
    requires Chain(w, roots, chain, key) && |chain| > 1
    ensures var n := |chain| - 1;
            && Chain(w, roots, chain[..n], chain[n - 1]) && key in Children(w, chain[n - 1])
               && key.path !in Paths(chain[..n])
  {
    var n := |chain| - 1;
    forall i: nat, j: nat
      ensures Link(w, chain[..n], i, j)
    {
      assert Link(w, chain, i, j);
    }
    assert Link(w, chain, n - 1, n);
    forall i | 0 <= i < n
      ensures chain[..n][i].path != key.path
    {
      assert Link(w, chain, i, n);
    }
    PathNotIn(chain[..n], key.path);
  }

  /** The walk visits every file that declarations lead to. */
  lemma {:induction false} Reaches<T(!new), P(!new), N(!new)>(walk: Walk<T, P, N>, chain: seq<Key<T, P, N>>,
      key: Key<T, P, N>)
    requires walk.Finished() && Unambiguous(walk.w, walk.roots) && Chain(walk.w, walk.roots, chain, key)
    ensures key in walk.visited
  {
    if |chain| > 1 {
      var n := |chain| - 1;
      Shorter(walk.w, walk.roots, chain, key);
      Reaches(walk, chain[..n], chain[n - 1]);
      OneChain(walk.w, walk.roots, chain[..n], walk.chains[chain[n - 1]], chain[n - 1]);
      assert walk.Done(chain[n - 1], Paths(chain[..n]));
    }
  }

  /** The files that define `f` and that declarations lead to. */
  ghost predicate Reachable<T(!new), P(!new), N(!new)>(w: World<P, N>, roots: set<Key<T, P, N>>, f: Found<T, P, N>) {
    exists chain, key :: Chain(w, roots, chain, key) && f in Functions(w, key)
  }

  /** A recorded function is one that a file defines to which declarations lead from a target, through
      files of the repository all different. Where no scope names two modules the same, every such
      function is recorded. */
  lemma ProvedCitations<T(!new), P(!new), N(!new)>(walk: Walk<T, P, N>, f: Found<T, P, N>)
    requires walk.Finished()
    ensures f in walk.functions ==> Reachable(walk.w, walk.roots, f)
    ensures Unambiguous(walk.w, walk.roots) ==> (f in walk.functions <==> Reachable(walk.w, walk.roots, f))
  {
    if f in walk.functions {
      assert walk.Recorded(f);
      var key :| key in walk.visited && f in Functions(walk.w, key);
      assert Chain(walk.w, walk.roots, walk.chains[key], key);
    }
    if Unambiguous(walk.w, walk.roots) && Reachable(walk.w, walk.roots, f) {
      var chain, key :| Chain(walk.w, walk.roots, chain, key) && f in Functions(walk.w, key);
      Reaches(walk, chain, key);
      assert walk.Done(key, Paths(walk.chains[key]));
    }
  }

  /** Whatever the modules are named, a declared one is left out only outside the repository or below
      itself: every module that a visited file declares is visited, outside, or a file already above. */
  lemma NothingElseLeftOut<T(!new), P(!new), N(!new)>(walk: Walk<T, P, N>, key: Key<T, P, N>)
    requires walk.Finished() && key in walk.visited
    ensures Functions(walk.w, key) <= walk.functions
    ensures exists chain ::
            Chain(walk.w, walk.roots, chain, key) && walk.AllSettled(Children(walk.w, key), Paths(chain), walk.visited)
  {
    assert walk.Done(key, Paths(walk.chains[key]));
  }
}
