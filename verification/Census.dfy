/** scripts/check_prism_pool_acquires.py: the names a census follows through aliases, grown until
    nothing changes. */
module Census {

  /** The tokens that make an alias: `as`, `type` and the semicolon that ends a type alias. */
  datatype Words<T> = Words(aliased: T, typed: T, stop: T)

  /** The first `stop` from `from` on, or the end of the source. */
  function StopAt<T(==)>(words: Words<T>, tokens: seq<T>, from: nat): (end: nat)
    requires from <= |tokens|
    ensures from <= end <= |tokens|
    decreases |tokens| - from
  {
    if from < |tokens| && tokens[from] != words.stop then StopAt(words, tokens, from + 1) else from
  }

  predicate Mentions<T(==)>(tokens: seq<T>, from: nat, to: nat, names: set<T>)
    requires from <= to <= |tokens|
  {
    exists k :: from <= k < to && tokens[k] in names
  }

  /** At position `i`, `name as alias` and `type alias = ... name ...;` carry a followed name over. */
  predicate HeldAt<T(==)>(words: Words<T>, types: bool, tokens: seq<T>, i: nat, names: set<T>)
    requires 1 <= i < |tokens| - 1
  {
    && (tokens[i] == words.aliased && tokens[i - 1] in names ==> tokens[i + 1] in names)
    && (types && tokens[i - 1] == words.typed && Mentions(tokens, i + 1, StopAt(words, tokens, i + 1), names) ==>
        tokens[i] in names)
  }

  predicate HeldUpTo<T(==)>(words: Words<T>, types: bool, tokens: seq<T>, n: nat, names: set<T>) {
    forall i :: 1 <= i < |tokens| - 1 && i < n ==> HeldAt(words, types, tokens, i, names)
  }

  /** Every alias of a followed name is followed. */
  predicate Closed<T(==)>(words: Words<T>, types: bool, sources: seq<seq<T>>, names: set<T>) {
    forall tokens :: tokens in sources ==> HeldUpTo(words, types, tokens, |tokens|, names)
  }

  /** The fewest names that hold `initial` and follow every alias. */
  ghost predicate Least<T(!new)>(words: Words<T>, types: bool, sources: seq<seq<T>>, initial: set<T>, names: set<T>) {
    && initial <= names && Closed(words, types, sources, names)
    && Needed(words, types, sources, initial, names)
  }

  /** No closed set that holds `initial` leaves out any of `names`. */
  ghost predicate Needed<T(!new)>(words: Words<T>, types: bool, sources: seq<seq<T>>, initial: set<T>, names: set<T>) {
    forall closed: set<T> :: initial <= closed && Closed(words, types, sources, closed) ==> names <= closed
  }

  function AllTokens<T>(sources: seq<seq<T>>): (all: set<T>)
    ensures forall tokens :: tokens in sources ==> forall k :: 0 <= k < |tokens| ==> tokens[k] in all
  {
    if sources == [] then {}
    else
      (set k | 0 <= k < |sources[0]| :: sources[0][k]) + AllTokens(sources[1..])
  }

  // ----- chains of aliases

  /** At position `i` of the source, `name` is an alias of `from`: in `from as name`, or, for types, in
      `type name = ... from ...;`, where `from` is at position `k` and no semicolon is up to there. */
  predicate Carries<T(==)>(words: Words<T>, types: bool, tokens: seq<T>, i: nat, k: nat, from: T, name: T) {
    && 1 <= i < |tokens| - 1
    && ((tokens[i] == words.aliased && from == tokens[i - 1] && name == tokens[i + 1])
        || (types && tokens[i - 1] == words.typed && name == tokens[i] && i < k < |tokens| && tokens[k] == from
            && NoStop(words, tokens, i + 1, k)))
  }

  /** No `stop` is from `from` to `k`. */
  predicate NoStop<T(==)>(words: Words<T>, tokens: seq<T>, from: nat, k: nat)
    requires from <= k < |tokens|
  {
    words.stop !in tokens[from..k + 1]
  }

  ghost predicate IsAlias<T(!new)>(words: Words<T>, types: bool, sources: seq<seq<T>>, from: T, name: T) {
    exists tokens, i: nat, k: nat :: tokens in sources && Carries(words, types, tokens, i, k, from, name)
  }

  /** The chain starts at one of the initial names, and each name after is an alias of the one before. */
  ghost predicate IsChain<T(!new)>(words: Words<T>, types: bool, sources: seq<seq<T>>, initial: set<T>, chain: seq<T>) {
    && chain != [] && chain[0] in initial
    && forall j :: 0 <= j < |chain| - 1 ==> LinkAt(words, types, sources, chain, j)
  }

  ghost predicate LinkAt<T(!new)>(words: Words<T>, types: bool, sources: seq<seq<T>>, chain: seq<T>, j: nat)
    requires j + 1 < |chain|
  {
    IsAlias(words, types, sources, chain[j], chain[j + 1])
  }

  ghost predicate Followed<T(!new)>(words: Words<T>, types: bool, sources: seq<seq<T>>, initial: set<T>, name: T) {
    exists chain :: IsChain(words, types, sources, initial, chain) && chain[|chain| - 1] == name
  }

  lemma {:induction false} StopAtExactly<T>(words: Words<T>, tokens: seq<T>, from: nat, k: nat)
    requires from <= k < |tokens|
    ensures k < StopAt(words, tokens, from) <==> NoStop(words, tokens, from, k)
    decreases k - from
  {
    if tokens[from] == words.stop {
      assert tokens[from..k + 1][0] == words.stop;
    } else if from < k {
      StopAtExactly(words, tokens, from + 1, k);
      assert tokens[from..k + 1] == [tokens[from]] + tokens[from + 1..k + 1];
    } else {
      assert tokens[from..k + 1] == [tokens[from]];
    }
  }

  /** A set is closed under the aliases at a position exactly when it holds them. */
  lemma HeldExactly<T>(words: Words<T>, types: bool, tokens: seq<T>, i: nat, names: set<T>)
    requires 1 <= i < |tokens| - 1
    ensures HeldAt(words, types, tokens, i, names) <==>
            forall k: nat, from, name :: from in names && Carries(words, types, tokens, i, k, from, name) ==>
              name in names
  {
    var start := i + 1;
    forall k: nat | start <= k < |tokens|
      ensures k < StopAt(words, tokens, start) <==> NoStop(words, tokens, start, k)
    {
      StopAtExactly(words, tokens, start, k);
    }
    if forall k: nat, from, name :: from in names && Carries(words, types, tokens, i, k, from, name) ==> name in names {
      if tokens[i] == words.aliased {
        assert Carries(words, types, tokens, i, 0, tokens[i - 1], tokens[i + 1]);
      }
      if types && tokens[i - 1] == words.typed && Mentions(tokens, i + 1, StopAt(words, tokens, i + 1), names) {
        var k :| i + 1 <= k < StopAt(words, tokens, i + 1) && tokens[k] in names;
        assert Carries(words, types, tokens, i, k, tokens[k], tokens[i]);
      }
    }
  }

  lemma AliasHeld<T(!new)>(words: Words<T>, types: bool, sources: seq<seq<T>>, names: set<T>, from: T, name: T)
    requires Closed(words, types, sources, names) && from in names && IsAlias(words, types, sources, from, name)
    ensures name in names
  {
    var tokens, i: nat, k: nat :| tokens in sources && Carries(words, types, tokens, i, k, from, name);
    assert HeldUpTo(words, types, tokens, |tokens|, names);
    assert HeldAt(words, types, tokens, i, names);
    HeldExactly(words, types, tokens, i, names);
  }

  lemma {:induction false} ChainHeld<T(!new)>(words: Words<T>, types: bool, sources: seq<seq<T>>, initial: set<T>,
      names: set<T>, chain: seq<T>, j: nat)
    requires Closed(words, types, sources, names) && initial <= names
    requires IsChain(words, types, sources, initial, chain) && j < |chain|
    ensures chain[j] in names
  {
    if j > 0 {
      ChainHeld(words, types, sources, initial, names, chain, j - 1);
      assert LinkAt(words, types, sources, chain, j - 1);
      AliasHeld(words, types, sources, names, chain[j - 1], chain[j]);
    }
  }

  lemma FollowedNext<T(!new)>(words: Words<T>, types: bool, sources: seq<seq<T>>, initial: set<T>, from: T, name: T)
    requires Followed(words, types, sources, initial, from) && IsAlias(words, types, sources, from, name)
    ensures Followed(words, types, sources, initial, name)
  {
    var chain :| IsChain(words, types, sources, initial, chain) && chain[|chain| - 1] == from;
    var longer := chain + [name];
    forall j | 0 <= j < |longer| - 1
      ensures LinkAt(words, types, sources, longer, j)
    {
      if j < |chain| - 1 {
        assert LinkAt(words, types, sources, chain, j);
      }
    }
    assert IsChain(words, types, sources, initial, longer);
  }

  lemma StartFollowed<T(!new)>(words: Words<T>, types: bool, sources: seq<seq<T>>, initial: set<T>, name: T)
    requires name in initial
    ensures Followed(words, types, sources, initial, name)
  {
    assert IsChain(words, types, sources, initial, [name]);
  }

  /** The least closed set holds exactly the names that a chain of aliases leads to from an initial one. */
  lemma LeastIsFollowed<T(!new)>(words: Words<T>, types: bool, sources: seq<seq<T>>, initial: set<T>, names: set<T>)
    requires Least(words, types, sources, initial, names)
    ensures forall name :: name in names <==> Followed(words, types, sources, initial, name)
  {
    forall name | Followed(words, types, sources, initial, name)
      ensures name in names
    {
      var chain :| IsChain(words, types, sources, initial, chain) && chain[|chain| - 1] == name;
      ChainHeld(words, types, sources, initial, names, chain, |chain| - 1);
    }
    ghost var followed := set name | name in names && Followed(words, types, sources, initial, name);
    forall name | name in initial
      ensures name in followed
    {
      StartFollowed(words, types, sources, initial, name);
    }
    FollowedClosed(words, types, sources, initial, names, followed);
    assert names <= followed;
  }

  lemma FollowedClosed<T(!new)>(words: Words<T>, types: bool, sources: seq<seq<T>>, initial: set<T>, names: set<T>,
      followed: set<T>)
    requires Closed(words, types, sources, names)
    requires forall name :: name in followed <==> name in names && Followed(words, types, sources, initial, name)
    ensures Closed(words, types, sources, followed)
  {
    forall tokens, i: nat | tokens in sources && 1 <= i < |tokens| - 1
      ensures HeldAt(words, types, tokens, i, followed)
    {
      forall k: nat, from, name | from in followed && Carries(words, types, tokens, i, k, from, name)
        ensures name in followed
      {
        assert IsAlias(words, types, sources, from, name);
        FollowedNext(words, types, sources, initial, from, name);
        AliasHeld(words, types, sources, names, from, name);
      }
      HeldExactly(words, types, tokens, i, followed);
    }
  }

  // ----- the loops

  /** The next set after position `i`, in place in the source. */
  method Follow<T(!new, ==)>(words: Words<T>, types: bool, ghost sources: seq<seq<T>>, ghost initial: set<T>,
      tokens: seq<T>, i: nat, names: set<T>) returns (grown: set<T>)
    requires tokens in sources && 1 <= i < |tokens| - 1
    requires Needed(words, types, sources, initial, names)
    ensures names <= grown <= names + {tokens[i], tokens[i + 1]}
    ensures Needed(words, types, sources, initial, grown)
    ensures grown == names ==> HeldAt(words, types, tokens, i, names)
  {
    grown := names;
    if tokens[i] == words.aliased && tokens[i - 1] in grown {
      grown := grown + {tokens[i + 1]};
      NeedsConclusion(words, types, sources, initial, names, tokens, i, tokens[i + 1]);
    }
    if types && tokens[i - 1] == words.typed {
      var end := i + 1;
      while end < |tokens| && tokens[end] != words.stop
        invariant i + 1 <= end <= |tokens|
        invariant StopAt(words, tokens, end) == StopAt(words, tokens, i + 1)
      {
        end := end + 1;
      }
      if exists k :: i + 1 <= k < end && tokens[k] in grown {
        NeedsConclusion(words, types, sources, initial, grown, tokens, i, tokens[i]);
        grown := grown + {tokens[i]};
      }
    }
  }

  lemma NeedsConclusion<T(!new)>(words: Words<T>, types: bool, sources: seq<seq<T>>, initial: set<T>, names: set<T>,
      tokens: seq<T>, i: nat, name: T)
    requires tokens in sources && 1 <= i < |tokens| - 1 && Needed(words, types, sources, initial, names)
    requires (name == tokens[i + 1] && tokens[i] == words.aliased && tokens[i - 1] in names)
          || (name == tokens[i] && types && tokens[i - 1] == words.typed
              && Mentions(tokens, i + 1, StopAt(words, tokens, i + 1), names))
    ensures Needed(words, types, sources, initial, names + {name})
  {
    forall closed: set<T> | initial <= closed && Closed(words, types, sources, closed)
      ensures names + {name} <= closed
    {
      assert HeldUpTo(words, types, tokens, |tokens|, closed);
      assert HeldAt(words, types, tokens, i, closed);
    }
  }

  /** One pass over every source. */
  method Pass<T(!new, ==)>(words: Words<T>, types: bool, sources: seq<seq<T>>, ghost initial: set<T>, names: set<T>)
      returns (grown: set<T>)
    requires Needed(words, types, sources, initial, names)
    ensures names <= grown <= names + AllTokens(sources)
    ensures Needed(words, types, sources, initial, grown)
    ensures grown == names ==> Closed(words, types, sources, names)
  {
    grown := names;
    for s := 0 to |sources|
      invariant names <= grown <= names + AllTokens(sources)
      invariant Needed(words, types, sources, initial, grown)
      invariant grown == names ==> forall k :: 0 <= k < s ==> HeldUpTo(words, types, sources[k], |sources[k]|, names)
    {
      var tokens := sources[s];
      ghost var earlier := grown;
      var i := 1;
      while i < |tokens| - 1
        invariant 1 <= i && earlier <= grown
        invariant names <= grown <= names + AllTokens(sources)
        invariant Needed(words, types, sources, initial, grown)
        invariant grown == names ==> HeldUpTo(words, types, tokens, i, names)
      {
        grown := Follow(words, types, sources, initial, tokens, i, grown);
        i := i + 1;
      }
    }
  }

  /** The loops over `pool_types` (with `types`) and `helpers`: they end, at the least closed set,
      whatever order the sources are visited in. */
  method Close<T(!new, ==)>(words: Words<T>, types: bool, sources: seq<seq<T>>, initial: set<T>) returns (names: set<T>)
    ensures Least(words, types, sources, initial, names)
    ensures forall name :: name in names <==> Followed(words, types, sources, initial, name)
  {
    names := initial;
    var changed := true;
    ghost var all := initial + AllTokens(sources);
    while changed
      invariant initial <= names <= all
      invariant Needed(words, types, sources, initial, names)
      invariant !changed ==> Closed(words, types, sources, names)
      decreases |all - names|, changed
    {
      var before := |names|;
      ghost var earlier := names;
      names := Pass(words, types, sources, initial, names);
      changed := |names| != before;
      if changed {
        Shrinks(all, earlier, names);
      } else {
        SameSize(earlier, names);
      }
    }
    LeastIsFollowed(words, types, sources, initial, names);
  }

  lemma SameSize<T>(a: set<T>, b: set<T>)
    requires a <= b && |a| == |b|
    ensures a == b
  {
    assert |b - a| == |b| - |a|;
  }

  lemma Shrinks<T>(all: set<T>, a: set<T>, b: set<T>)
    requires a <= b <= all && |a| != |b|
    ensures |all - b| < |all - a|
  {
    assert all - a == (all - b) + (b - a);
    assert b == a + (b - a);
  }

  /** There is only one least closed set, and it does not depend on the order of the sources. */
  lemma OrderIrrelevant<T(!new)>(words: Words<T>, types: bool, sources: seq<seq<T>>, other: seq<seq<T>>,
      initial: set<T>, a: set<T>, b: set<T>)
    requires forall tokens :: tokens in sources <==> tokens in other
    requires Least(words, types, sources, initial, a) && Least(words, types, other, initial, b)
    ensures a == b
  {
    assert Closed(words, types, sources, b) && Closed(words, types, other, a);
  }
}
