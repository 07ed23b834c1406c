/** lab/auxpow/auxpow_coordinator.py: the coinbase's Merkle branch. Nodes are 32-byte hashes and
    `pair` is the double SHA-256 of two of them, one after the other. */
module Merkle {

  /** The next level up: neighbours paired, the last one with itself when it has none. */
  function Level<T>(pair: (T, T) -> T, nodes: seq<T>): (up: seq<T>)
    ensures |up| == (|nodes| + 1) / 2
  {
    if nodes == [] then []
    else if |nodes| == 1 then [pair(nodes[0], nodes[0])]
    else [pair(nodes[0], nodes[1])] + Level(pair, nodes[2..])
  }

  /** Bitcoin's Merkle root, the last node of an odd level paired with itself. */
  function Root<T>(pair: (T, T) -> T, nodes: seq<T>): T
    requires nodes != []
    decreases |nodes|
  {
    if |nodes| == 1 then nodes[0] else Root(pair, Level(pair, nodes))
  }

  function Branch<T>(pair: (T, T) -> T, nodes: seq<T>): seq<T>
    decreases |nodes|
  {
    if |nodes| <= 1 then [] else [nodes[1]] + Branch(pair, Level(pair, nodes))
  }

  function Fold<T>(pair: (T, T) -> T, leaf: T, branch: seq<T>): T {
    if branch == [] then leaf else Fold(pair, pair(leaf, branch[0]), branch[1..])
  }

  lemma LevelOfOther<T>(pair: (T, T) -> T, nodes: seq<T>, leaf: T)
    requires |nodes| >= 2
    ensures Level(pair, nodes[0 := leaf]) == Level(pair, nodes)[0 := pair(leaf, nodes[1])]
  {
    assert nodes[0 := leaf][2..] == nodes[2..];
  }

  /** The branch taken from one coinbase proves any other: folding it gives the full root of the
      same list with that coinbase first. */
  lemma {:induction false} BranchProvesAnyCoinbase<T>(pair: (T, T) -> T, nodes: seq<T>, leaf: T)
    requires nodes != []
    ensures Fold(pair, leaf, Branch(pair, nodes)) == Root(pair, nodes[0 := leaf])
    decreases |nodes|
  {
    if |nodes| > 1 {
      var up := Level(pair, nodes);
      LevelOfOther(pair, nodes, leaf);
      BranchProvesAnyCoinbase(pair, up, pair(leaf, nodes[1]));
      assert Branch(pair, nodes)[1..] == Branch(pair, up);
    }
  }

  /** `index ^ 1` */
  function Sibling(index: nat): nat {
    if index % 2 == 0 then index + 1 else index - 1
  }

  /** Neighbours are each other's sibling, and are paired into one place of the next level. */
  lemma SiblingsPair(index: nat)
    ensures Sibling(index) != index && Sibling(Sibling(index)) == index && Sibling(index) / 2 == index / 2
  {
  }

  lemma {:induction false} LevelStep<T>(pair: (T, T) -> T, nodes: seq<T>, offset: nat)
    requires offset % 2 == 0 && offset < |nodes|
    ensures var right := if offset + 1 < |nodes| then nodes[offset + 1] else nodes[offset];
            var next := if offset + 2 <= |nodes| then offset + 2 else |nodes|;
            Level(pair, nodes[..next]) == Level(pair, nodes[..offset]) + [pair(nodes[offset], right)]
    decreases offset
  {
    var next := if offset + 2 <= |nodes| then offset + 2 else |nodes|;
    if offset == 0 {
      assert next == 2 ==> nodes[..next][2..] == [];
    } else {
      LevelStep(pair, nodes[2..], offset - 2);
      assert nodes[2..][..offset - 2] == nodes[..offset][2..];
      assert nodes[2..][..next - 2] == nodes[..next][2..];
    }
  }

  /** The inner loop of `build_coinbase_merkle_branch`. */
  method NextLevel<T>(pair: (T, T) -> T, hashes: seq<T>) returns (next: seq<T>)
    ensures next == Level(pair, hashes)
  {
    next := [];
    var offset := 0;
    while offset < |hashes|
      invariant offset % 2 == 0 && offset <= |hashes| + 1
      invariant next == Level(pair, hashes[..if offset <= |hashes| then offset else |hashes|])
    {
      var right := if offset + 1 < |hashes| then hashes[offset + 1] else hashes[offset];
      LevelStep(pair, hashes, offset);
      next := next + [pair(hashes[offset], right)];
      offset := offset + 2;
    }
    assert hashes[..|hashes|] == hashes;
  }

  /** `build_coinbase_merkle_branch` */
  method BuildBranch<T>(pair: (T, T) -> T, txids: seq<T>) returns (branch: seq<T>)
    ensures branch == Branch(pair, txids)
    ensures forall leaf :: txids != [] ==> Fold(pair, leaf, branch) == Root(pair, txids[0 := leaf])
  {
    var hashes, index := txids, 0;
    branch := [];
    while |hashes| > 1
      invariant index == 0
      invariant branch + Branch(pair, hashes) == Branch(pair, txids)
      decreases |hashes|
    {
      var sibling := Sibling(index);
      if sibling >= |hashes| {
        sibling := index;
      }
      ghost var before := branch;
      branch := branch + [hashes[sibling]];
      var next := NextLevel(pair, hashes);
      assert before + ([hashes[1]] + Branch(pair, next)) == branch + Branch(pair, next);
      hashes, index := next, index / 2;
    }
    assert branch == branch + Branch(pair, hashes);
    forall leaf | txids != []
      ensures Fold(pair, leaf, branch) == Root(pair, txids[0 := leaf])
    {
      BranchProvesAnyCoinbase(pair, txids, leaf);
    }
  }

  /** `compute_coinbase_merkle_root` */
  method FoldBranch<T>(pair: (T, T) -> T, leaf: T, branch: seq<T>) returns (root: T)
    ensures root == Fold(pair, leaf, branch)
  {
    root := leaf;
    for i := 0 to |branch|
      invariant Fold(pair, root, branch[i..]) == Fold(pair, leaf, branch)
    {
      root := pair(root, branch[i]);
      assert branch[i..][1..] == branch[i + 1..];
    }
  }
}
