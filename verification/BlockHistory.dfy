/** backend/permissionless_telemetry.py: which block a miner's block event is attached to, over polls
    that may fail part of the way. */
module BlockHistory {
  import opened Common
  import opened Results
  import opened Sorting

  /** An entry of the history, or a pending block event, which has no height yet. */
  datatype Item<W, H> = Item(foundAt: int, height: Option<int>, worker: W, hash: Option<H>)

  /** The worker names the program compares with: none, and the one given to unattributed blocks. */
  datatype Names<W> = Names(blank: W, anonymous: W)

  /** What the node answers for a height: a block and whether its coinbase pays the configured
      address, or an RPC failure. */
  datatype Answer<H> = Fails | Block(hash: H, pays: bool)

  /** `address` tells whether a payout address is configured at all. */
  datatype View<H> = Unreachable | View(tip: nat, address: bool, at: int -> Answer<H>) {
    predicate Pays(height: int)
      requires View?
    {
      address && at(height).Block? && at(height).pays
    }
  }

  // ----- reconciling

  /** What `reconcile_block_history` takes for the same block. */
  datatype Key<H> = NoKey | Height(height: int) | Hash(hash: H)

  function KeyOf<W, H>(item: Item<W, H>): Key<H> {
    if item.height.Some? then Height(item.height.value)
    else if item.hash.Some? then Hash(item.hash.value)
    else NoKey
  }

  function Position<W, H(==)>(key: Key<H>, items: seq<Item<W, H>>): (at: Option<nat>)
    ensures at.Some? ==> at.value < |items| && KeyOf(items[at.value]) == key
    ensures at.None? <==> forall i :: 0 <= i < |items| ==> KeyOf(items[i]) != key
  {
    if items == [] then None
    else if KeyOf(items[0]) == key then Some(0)
    else
      match Position(key, items[1..])
      case None => None
      case Some(i) => Some(i + 1)
  }

  function Merge<W(==), H>(names: Names<W>, current: Item<W, H>, incoming: Item<W, H>): Item<W, H> {
    var named :=
      if incoming.worker != names.blank && incoming.worker != names.anonymous then
        current.(worker := incoming.worker, foundAt := incoming.foundAt)
      else if current.worker == names.blank then current.(worker := incoming.worker)
      else current;
    if incoming.hash.Some? then named.(hash := incoming.hash) else named
  }

  function Reconcile1<W(==), H(==)>(names: Names<W>, done: seq<Item<W, H>>, item: Item<W, H>): seq<Item<W, H>> {
    var at := if KeyOf(item) == NoKey then None else Position(KeyOf(item), done);
    if at.None? then done + [item] else done[at.value := Merge(names, done[at.value], item)]
  }

  function Reconciled<W(==), H(==)>(names: Names<W>, items: seq<Item<W, H>>): seq<Item<W, H>> {
    if items == [] then []
    else
      var n := |items| - 1;
      Reconcile1(names, Reconciled(names, items[..n]), items[n])
  }

  ghost predicate DistinctKeys<W, H>(items: seq<Item<W, H>>) {
    forall i, j :: 0 <= i < j < |items| && KeyOf(items[i]) != NoKey ==> KeyOf(items[i]) != KeyOf(items[j])
  }

  ghost predicate DistinctHeights<W, H>(items: seq<Item<W, H>>) {
    forall i, j :: 0 <= i < j < |items| && items[i].height.Some? ==> items[i].height != items[j].height
  }

  predicate HasHeight<W, H>(items: seq<Item<W, H>>, height: int) {
    exists i :: 0 <= i < |items| && items[i].height == Some(height)
  }

  /** Whatever the stored history is, the reconciled one has one entry a block, and every height. */
  lemma {:induction false} ReconciledDistinct<W, H>(names: Names<W>, items: seq<Item<W, H>>, height: int)
    ensures DistinctKeys(Reconciled(names, items)) && DistinctHeights(Reconciled(names, items))
    ensures HasHeight(Reconciled(names, items), height) <==> HasHeight(items, height)
  {
    if items != [] {
      var n := |items| - 1;
      var before, item := Reconciled(names, items[..n]), items[n];
      ReconciledDistinct(names, items[..n], height);
      Reconcile1Keys(names, before, item, height);
      assert HasHeight(items, height) <==> HasHeight(items[..n], height) || item.height == Some(height) by {
        assert items == items[..n] + [item];
      }
    }
    DistinctKeysHeights(Reconciled(names, items));
  }

  lemma DistinctKeysHeights<W, H>(items: seq<Item<W, H>>)
    requires DistinctKeys(items)
    ensures DistinctHeights(items)
  {
    forall i, j | 0 <= i < j < |items| && items[i].height.Some?
      ensures items[i].height != items[j].height
    {
      assert KeyOf(items[i]) != KeyOf(items[j]);
    }
  }

  lemma Reconcile1Keys<W, H>(names: Names<W>, done: seq<Item<W, H>>, item: Item<W, H>, height: int)
    requires DistinctKeys(done)
    ensures DistinctKeys(Reconcile1(names, done, item))
    ensures HasHeight(Reconcile1(names, done, item), height) <==> HasHeight(done, height) || item.height == Some(height)
  {
    var r := Reconcile1(names, done, item);
    if KeyOf(item) != NoKey && Position(KeyOf(item), done).Some? {
      var at := Position(KeyOf(item), done).value;
      assert forall i :: 0 <= i < |done| ==> KeyOf(r[i]) == KeyOf(done[i]) && r[i].height == done[i].height;
      assert item.height == done[at].height;
    } else {
      assert forall i :: 0 <= i < |done| ==> r[i] == done[i];
      assert r[|done|] == item;
    }
  }

  function Cut<T>(items: seq<T>): seq<T> {
    if |items| <= 100 then items else items[..100]
  }

  /** `after` has the entries of `before` at their places, and maybe more. */
  ghost predicate Extends<W, H>(before: seq<Item<W, H>>, after: seq<Item<W, H>>) {
    |before| <= |after| && forall p :: 0 <= p < |before| ==> KeyOf(after[p]) == KeyOf(before[p])
  }

  lemma Reconcile1Extends<W, H>(names: Names<W>, done: seq<Item<W, H>>, item: Item<W, H>)
    ensures Extends(done, Reconcile1(names, done, item))
  {
  }

  /** Entries stay where they were put. */
  lemma {:induction false} KeysStay<W, H>(names: Names<W>, items: seq<Item<W, H>>, m: nat)
    requires m <= |items|
    ensures Extends(Reconciled(names, items[..m]), Reconciled(names, items))
  {
    if m == |items| {
      assert items[..m] == items;
    } else {
      var n := |items| - 1;
      assert items[..n][..m] == items[..m];
      KeysStay(names, items[..n], m);
      Reconcile1Extends(names, Reconciled(names, items[..n]), items[n]);
    }
  }

  /** A height is kept exactly when fewer than a hundred entries come before its first one. */
  lemma HeightKept<W, H>(names: Names<W>, items: seq<Item<W, H>>, first: nat)
    requires first < |items| && items[first].height.Some? && !HasHeight(items[..first], items[first].height.value)
    ensures HasHeight(Cut(Reconciled(names, items)), items[first].height.value) <==>
              |Reconciled(names, items[..first])| < 100
    ensures DistinctHeights(Cut(Reconciled(names, items)))
  {
    var height, all := items[first].height.value, Reconciled(names, items);
    var before, at := Reconciled(names, items[..first]), |Reconciled(names, items[..first])|;
    ReconciledDistinct(names, items[..first], height);
    ReconciledDistinct(names, items, height);
    assert items[..first + 1][..first] == items[..first];
    assert Position(KeyOf(items[first]), before) == None;
    KeysStay(names, items, first + 1);
    assert KeyOf(all[at]) == Height(height);
    assert all[at].height == Some(height);
    if at < 100 {
      assert Cut(all)[at] == all[at];
    }
  }

  // ----- the scan

  /** The scan's working state, with the events it attached and the heights it examined. */
  datatype Work<W, H> = Work(history: seq<Item<W, H>>, pending: seq<Item<W, H>>, attached: seq<Item<W, H>>,
      examined: seq<int>)

  datatype Scanned<W, H> = Reached(work: Work<W, H>) | Stopped(work: Work<W, H>, at: int)

  /** `known_heights[height]["block_hash"] = ...`, on the last entry of that height. */
  function SetHash<W, H>(history: seq<Item<W, H>>, height: int, hash: H): (r: seq<Item<W, H>>)
    ensures |r| == |history|
    ensures forall i :: 0 <= i < |r| ==> r[i].height == history[i].height && (history[i].hash.Some? ==> r[i].hash.Some?)
  {
    if history == [] then []
    else
      var n := |history| - 1;
      if history[n].height == Some(height) then history[..n] + [history[n].(hash := Some(hash))]
      else SetHash(history[..n], height, hash) + [history[n]]
  }

  /** One height whose block was fetched. */
  function Examine<W, H>(anonymous: W, now: int, work: Work<W, H>, height: int, hash: H, pays: bool): Work<W, H> {
    var examined := work.(examined := work.examined + [height]);
    if !pays then examined
    else if HasHeight(work.history, height) then examined.(history := SetHash(work.history, height, hash))
    else if work.pending != [] then
      var item := work.pending[0];
      examined.(history := [item.(height := Some(height), hash := Some(hash))] + work.history,
                pending := work.pending[1..], attached := work.attached + [item])
    else examined.(history := [Item(now, Some(height), anonymous, Some(hash))] + work.history)
  }

  function ScanFrom<W, H>(anonymous: W, now: int, view: View<H>, height: int, work: Work<W, H>): Scanned<W, H>
    requires view.View?
    decreases view.tip - height
  {
    if height > view.tip then Reached(work)
    else
      match view.at(height)
      case Fails => Stopped(work, height)
      case Block(hash, pays) => ScanFrom(anonymous, now, view, height + 1,
                                         Examine(anonymous, now, work, height, hash, view.Pays(height)))
  }

  /** Entries with a height and no hash are looked up again, and dropped if their block does not pay. */
  function Revalidated<W, H>(history: seq<Item<W, H>>, view: View<H>): seq<Item<W, H>>
    requires view.View?
  {
    if history == [] then []
    else
      var n, item := |history| - 1, history[|history| - 1];
      Revalidated(history[..n], view) +
      if !view.address || item.height.None? || item.hash.Some? then [item]
      else
        match view.at(item.height.value)
        case Fails => [item]
        case Block(hash, pays) => if pays then [item.(hash := Some(hash))] else []
  }

  datatype State<W, H> = State(history: seq<Item<W, H>>, pending: seq<Item<W, H>>, cursor: Option<int>)

  predicate Older<W, H>(a: Item<W, H>, b: Item<W, H>) {
    a.foundAt <= b.foundAt
  }

  predicate Higher<W, H>(a: Item<W, H>, b: Item<W, H>) {
    (if b.height.Some? then b.height.value else 0) <= (if a.height.Some? then a.height.value else 0)
  }

  function StartOf(cursor: Option<int>, tip: nat): int {
    match cursor
    case None => if tip < 20 then 0 else tip - 20
    case Some(previous) => previous + 1
  }

  /** The waiting events, oldest first. */
  function OldestFirst<W(!new), H(!new)>(pending: seq<Item<W, H>>): (r: seq<Item<W, H>>)
    ensures multiset(r) == multiset(pending)
  {
    Sort((a: Item<W, H>, b: Item<W, H>) => Older(a, b), pending)
  }

  function HighestFirst<W(!new), H(!new)>(history: seq<Item<W, H>>): seq<Item<W, H>> {
    Sort((a: Item<W, H>, b: Item<W, H>) => Higher(a, b), history)
  }

  /** `scan_qbit_blocks`, once it knows the tip. */
  function ScanOf<W(!new), H(!new)>(names: Names<W>, now: int, view: View<H>, state: State<W, H>): Scanned<W, H>
    requires view.View?
  {
    ScanFrom(names.anonymous, now, view, StartOf(state.cursor, view.tip),
             Work(Revalidated(state.history, view), OldestFirst(state.pending), [], []))
  }

  /** What `main` stores of a scan. One that an RPC failure stopped returns its history, but leaves
      the stored pending events as they were. */
  function Stored<W(!new), H(!new)>(state: State<W, H>, tip: nat, scanned: Scanned<W, H>): State<W, H> {
    match scanned
    case Stopped(work, at) => State(work.history, state.pending, Some(at - 1))
    case Reached(work) => State(Cut(HighestFirst(work.history)), work.pending, Some(tip))
  }

  // ----- every height once

  function Range(from: int, to: int): (r: seq<int>)
    ensures |r| == if from < to then to - from else 0
    ensures forall i :: 0 <= i < |r| ==> r[i] == from + i
  {
    if from < to then seq(to - from, i => from + i) else []
  }

  /** Where a scan ended: every height from `height` up to there was examined, once, in order. */
  lemma {:induction false} ExaminesInOrder<W, H>(anonymous: W, now: int, view: View<H>, height: int, work: Work<W, H>)
    requires view.View?
    ensures var r := ScanFrom(anonymous, now, view, height, work);
            var end := if r.Reached? then (if height <= view.tip then view.tip + 1 else height) else r.at;
            height <= end && r.work.examined == work.examined + Range(height, end)
            && (r.Stopped? ==> r.at <= view.tip && view.at(r.at) == Fails)
    decreases view.tip - height
  {
    if height <= view.tip && view.at(height) != Fails {
      var answer := view.at(height);
      var next := Examine(anonymous, now, work, height, answer.hash, view.Pays(height));
      ExaminesInOrder(anonymous, now, view, height + 1, next);
    }
  }

  // ----- distinct heights

  lemma ExamineDistinct<W, H>(anonymous: W, now: int, work: Work<W, H>, height: int, hash: H, pays: bool)
    requires DistinctHeights(work.history)
    ensures DistinctHeights(Examine(anonymous, now, work, height, hash, pays).history)
  {
  }

  lemma {:induction false} ScanDistinct<W, H>(anonymous: W, now: int, view: View<H>, height: int, work: Work<W, H>)
    requires view.View? && DistinctHeights(work.history)
    ensures DistinctHeights(ScanFrom(anonymous, now, view, height, work).work.history)
    decreases view.tip - height
  {
    if height <= view.tip && view.at(height) != Fails {
      var answer := view.at(height);
      ExamineDistinct(anonymous, now, work, height, answer.hash, view.Pays(height));
      ScanDistinct(anonymous, now, view, height + 1,
                   Examine(anonymous, now, work, height, answer.hash, view.Pays(height)));
    }
  }

  // ----- which block each event gets

  /** A block that pays and is in no entry of the history. */
  predicate NewBlock<W, H>(view: View<H>, history: seq<Item<W, H>>, height: int)
    requires view.View?
  {
    view.Pays(height) && !HasHeight(history, height)
  }

  function NewBlocks<W, H>(view: View<H>, history: seq<Item<W, H>>, from: int, end: int): seq<int>
    requires view.View?
    decreases end - from
  {
    if from < end then
      var later := NewBlocks(view, history, from + 1, end);
      if NewBlock(view, history, from) then [from] + later else later
    else []
  }

  lemma {:induction false} AnyNewBlock<W, H>(view: View<H>, history: seq<Item<W, H>>, from: int, end: int)
    requires view.View?
    ensures NewBlocks(view, history, from, end) != [] <==>
            (exists height :: from <= height < end && NewBlock(view, history, height))
    decreases end - from
  {
    if from < end {
      AnyNewBlock(view, history, from + 1, end);
    }
  }

  lemma {:induction false} SameNewBlocks<W, H>(
      view: View<H>, history: seq<Item<W, H>>, other: seq<Item<W, H>>, from: int, end: int)
    requires view.View?
    requires forall height :: from <= height ==> (HasHeight(history, height) <==> HasHeight(other, height))
    ensures NewBlocks(view, history, from, end) == NewBlocks(view, other, from, end)
    decreases end - from
  {
    if from < end {
      SameNewBlocks(view, history, other, from + 1, end);
    }
  }

  /** The entry of the k-th new block: the k-th waiting event, or no event when they have run out. */
  function EntryOf<W, H>(anonymous: W, now: int, pending: seq<Item<W, H>>, k: nat, height: int, hash: H): Item<W, H> {
    (if k < |pending| then pending[k]
     else Item(now, None, anonymous, None)).(height := Some(height), hash := Some(hash))
  }

  /** `after` is `before` with an entry for each new block put in front, the last first; entries of
      heights below `from` are as they were. */
  ghost predicate Attributed<W, H>(
      anonymous: W, now: int, view: View<H>, pending: seq<Item<W, H>>, from: int, blocks: seq<int>,
      before: seq<Item<W, H>>, after: seq<Item<W, H>>)
    requires view.View?
  {
    var n := |blocks|;
    && |after| == n + |before|
    && (forall k :: 0 <= k < n ==> view.at(blocks[k]).Block?
                                   && after[n - 1 - k] == EntryOf(anonymous, now, pending, k, blocks[k],
                                                                  view.at(blocks[k]).hash))
    && (forall i :: 0 <= i < |before| ==> after[n + i].height == before[i].height
                                          && (before[i].height.None? || before[i].height.value < from ==>
                                              after[n + i] == before[i]))
  }

  lemma {:induction false} SetHashApart<W, H>(history: seq<Item<W, H>>, height: int, hash: H)
    ensures var r := SetHash(history, height, hash);
            forall i :: 0 <= i < |r| && history[i].height != Some(height) ==> r[i] == history[i]
    ensures forall h :: HasHeight(SetHash(history, height, hash), h) <==> HasHeight(history, h)
  {
    if history != [] && history[|history| - 1].height != Some(height) {
      SetHashApart(history[..|history| - 1], height, hash);
    }
    var r := SetHash(history, height, hash);
    assert forall i :: 0 <= i < |r| ==> r[i].height == history[i].height;
  }

  /** Where a scan ended. */
  function EndOf<W, H>(view: View<H>, height: int, r: Scanned<W, H>): int
    requires view.View?
  {
    if r.Stopped? then r.at else if height <= view.tip then view.tip + 1 else height
  }

  lemma FrontHeight<W, H>(entry: Item<W, H>, history: seq<Item<W, H>>, height: int)
    requires entry.height == Some(height)
    ensures forall h :: h != height ==> (HasHeight([entry] + history, h) <==> HasHeight(history, h))
  {
    assert forall i :: 0 <= i < |history| ==> ([entry] + history)[i + 1] == history[i];
  }

  /** One more entry in front, of a block below the others. */
  lemma AttributedFront<W, H>(
      anonymous: W, now: int, view: View<H>, pending: seq<Item<W, H>>, rest: seq<Item<W, H>>, height: int,
      later: seq<int>, history: seq<Item<W, H>>, after: seq<Item<W, H>>)
    requires view.View? && view.at(height).Block?
    requires rest == if pending == [] then [] else pending[1..]
    requires var entry := EntryOf(anonymous, now, pending, 0, height, view.at(height).hash);
             Attributed(anonymous, now, view, rest, height + 1, later, [entry] + history, after)
    ensures Attributed(anonymous, now, view, pending, height, [height] + later, history, after)
  {
    var entry := EntryOf(anonymous, now, pending, 0, height, view.at(height).hash);
    var before, blocks := [entry] + history, [height] + later;
    forall k | 0 <= k < |blocks|
      ensures view.at(blocks[k]).Block?
              && after[|blocks| - 1 - k] == EntryOf(anonymous, now, pending, k, blocks[k], view.at(blocks[k]).hash)
    {
      if k == 0 {
        assert after[|later| + 0] == before[0];
      } else {
        assert blocks[k] == later[k - 1];
      }
    }
    forall i | 0 <= i < |history|
      ensures after[|blocks| + i].height == history[i].height
      ensures history[i].height.None? || history[i].height.value < height ==> after[|blocks| + i] == history[i]
    {
      assert before[i + 1] == history[i];
      assert after[|later| + (i + 1)].height == before[i + 1].height;
    }
  }

  lemma OneNewBlock<W, H>(
      anonymous: W, now: int, view: View<H>, height: int, work: Work<W, H>, end: int, after: seq<Item<W, H>>)
    requires view.View? && height < end && view.at(height).Block? && NewBlock(view, work.history, height)
    requires var next := Examine(anonymous, now, work, height, view.at(height).hash, true);
             Attributed(anonymous, now, view, next.pending, height + 1, NewBlocks(view, next.history, height + 1, end),
                        next.history, after)
    ensures Attributed(anonymous, now, view, work.pending, height, NewBlocks(view, work.history, height, end),
                       work.history, after)
    ensures var next := Examine(anonymous, now, work, height, view.at(height).hash, true);
            NewBlocks(view, work.history, height, end) == [height] + NewBlocks(view, next.history, height + 1, end)
  {
    var next := Examine(anonymous, now, work, height, view.at(height).hash, true);
    var entry := EntryOf(anonymous, now, work.pending, 0, height, view.at(height).hash);
    assert next.history == [entry] + work.history;
    FrontHeight(entry, work.history, height);
    SameNewBlocks(view, next.history, work.history, height + 1, end);
    var later := NewBlocks(view, next.history, height + 1, end);
    AttributedFront(anonymous, now, view, work.pending, next.pending, height, later, work.history, after);
  }

  lemma NoNewBlock<W, H>(
      anonymous: W, now: int, view: View<H>, height: int, work: Work<W, H>, end: int, after: seq<Item<W, H>>)
    requires view.View? && height < end && view.at(height).Block? && !NewBlock(view, work.history, height)
    requires var next := Examine(anonymous, now, work, height, view.at(height).hash, view.Pays(height));
             Attributed(anonymous, now, view, next.pending, height + 1, NewBlocks(view, next.history, height + 1, end),
                        next.history, after)
    ensures Attributed(anonymous, now, view, work.pending, height, NewBlocks(view, work.history, height, end),
                       work.history, after)
    ensures var next := Examine(anonymous, now, work, height, view.at(height).hash, view.Pays(height));
            NewBlocks(view, work.history, height, end) == NewBlocks(view, next.history, height + 1, end)
  {
    var next := Examine(anonymous, now, work, height, view.at(height).hash, view.Pays(height));
    SetHashApart(work.history, height, view.at(height).hash);
    SameNewBlocks(view, next.history, work.history, height + 1, end);
    assert next.pending == work.pending;
  }

  /** `after` has attached the first `n` events that waited, or all if there are fewer. */
  ghost predicate Uses<W, H>(before: Work<W, H>, n: nat, after: Work<W, H>) {
    var used := Least(n, |before.pending|);
    after.attached == before.attached + before.pending[..used] && after.pending == before.pending[used..]
  }

  lemma UsesOne<W, H>(work: Work<W, H>, next: Work<W, H>, n: nat, after: Work<W, H>)
    requires if work.pending == [] then next.attached == work.attached && next.pending == []
             else next.attached == work.attached + [work.pending[0]] && next.pending == work.pending[1..]
    requires Uses(next, n, after)
    ensures Uses(work, n + 1, after)
  {
    if work.pending != [] {
      var used := Least(n, |next.pending|);
      assert work.pending[..used + 1] == [work.pending[0]] + next.pending[..used];
    }
  }

  /** Each new block below `end` got the next waiting event in turn, and an unnamed entry once there
      was none; the events used are no longer waiting. */
  ghost predicate Attributes<W, H>(
      anonymous: W, now: int, view: View<H>, height: int, work: Work<W, H>, end: int, after: Work<W, H>)
    requires view.View?
  {
    var blocks := NewBlocks(view, work.history, height, end);
    && Attributed(anonymous, now, view, work.pending, height, blocks, work.history, after.history)
    && Uses(work, |blocks|, after)
  }

  lemma AttributesOne<W, H>(
      anonymous: W, now: int, view: View<H>, height: int, work: Work<W, H>, end: int, after: Work<W, H>)
    requires view.View? && height < end && view.at(height).Block?
    requires Attributes(anonymous, now, view, height + 1,
                        Examine(anonymous, now, work, height, view.at(height).hash, view.Pays(height)), end, after)
    ensures Attributes(anonymous, now, view, height, work, end, after)
  {
    var next := Examine(anonymous, now, work, height, view.at(height).hash, view.Pays(height));
    if NewBlock(view, work.history, height) {
      OneNewBlock(anonymous, now, view, height, work, end, after.history);
      UsesOne(work, next, |NewBlocks(view, next.history, height + 1, end)|, after);
    } else {
      NoNewBlock(anonymous, now, view, height, work, end, after.history);
    }
  }

  lemma NothingUsed<W, H>(anonymous: W, now: int, view: View<H>, height: int, work: Work<W, H>)
    requires view.View?
    ensures Attributes(anonymous, now, view, height, work, height, work)
  {
    assert work.attached + work.pending[..0] == work.attached;
  }

  type Relation<!W, !H> = (int, Work<W, H>, int, Work<W, H>) -> bool

  ghost predicate Starts<W(!new), H(!new)>(holds: Relation<W, H>) {
    forall height, work :: holds(height, work, height, work)
  }

  ghost predicate Steps<W(!new), H(!new)>(anonymous: W, now: int, view: View<H>, holds: Relation<W, H>)
    requires view.View?
  {
    forall height, work, end, after ::
      && height < end && view.at(height).Block?
      && holds(height + 1, Examine(anonymous, now, work, height, view.at(height).hash, view.Pays(height)), end, after)
      ==> holds(height, work, end, after)
  }

  /** What holds of no heights, and of one more examined first, holds of a scan. */
  lemma {:induction false} ScanRelates<W(!new), H(!new)>(
      anonymous: W, now: int, view: View<H>, holds: Relation<W, H>, height: int, work: Work<W, H>)
    requires view.View? && Starts(holds) && Steps(anonymous, now, view, holds)
    ensures var r := ScanFrom(anonymous, now, view, height, work);
            height <= EndOf(view, height, r) && holds(height, work, EndOf(view, height, r), r.work)
    decreases view.tip - height
  {
    if height <= view.tip && !view.at(height).Fails? {
      var next := Examine(anonymous, now, work, height, view.at(height).hash, view.Pays(height));
      ScanRelates(anonymous, now, view, holds, height + 1, next);
    }
  }

  lemma ScanAttributes<W(!new), H(!new)>(anonymous: W, now: int, view: View<H>, height: int, work: Work<W, H>)
    requires view.View?
    ensures var r := ScanFrom(anonymous, now, view, height, work);
            height <= EndOf(view, height, r)
              && Attributes(anonymous, now, view, height, work, EndOf(view, height, r), r.work)
  {
    var holds: Relation<W, H> := (h, w, end, after) => Attributes(anonymous, now, view, h, w, end, after);
    forall h, w
      ensures holds(h, w, h, w)
    {
      NothingUsed(anonymous, now, view, h, w);
    }
    forall h, w, end, after |
      && h < end && view.at(h).Block?
      && holds(h + 1, Examine(anonymous, now, w, h, view.at(h).hash, view.Pays(h)), end, after)
      ensures holds(h, w, end, after)
    {
      AttributesOne(anonymous, now, view, h, w, end, after);
    }
    ScanRelates(anonymous, now, view, holds, height, work);
  }

  // ----- which scans are torn

  /** The node fails at this height first. */
  predicate FailsFirst<H>(view: View<H>, from: int, at: int)
    requires view.View?
  {
    from <= at <= view.tip && view.at(at).Fails? && forall height :: from <= height < at ==> !view.at(height).Fails?
  }

  lemma {:induction false} StopsWhereFails<W, H>(anonymous: W, now: int, view: View<H>, height: int, work: Work<W, H>)
    requires view.View?
    ensures var r := ScanFrom(anonymous, now, view, height, work);
            forall at :: FailsFirst(view, height, at) <==> r.Stopped? && at == r.at
    decreases view.tip - height
  {
    if height <= view.tip && !view.at(height).Fails? {
      var next := Examine(anonymous, now, work, height, view.at(height).hash, view.Pays(height));
      StopsWhereFails(anonymous, now, view, height + 1, next);
      forall at
        ensures FailsFirst(view, height, at) <==> FailsFirst(view, height + 1, at)
      {
      }
    }
  }

  /** The node fails at some height, and below it is a block that is new. */
  ghost predicate FailsPastNewBlock<W, H>(view: View<H>, history: seq<Item<W, H>>, from: int)
    requires view.View?
  {
    exists at, height :: FailsFirst(view, from, at) && from <= height < at && NewBlock(view, history, height)
  }

  /** A scan stops after it has attached an event exactly when one waits and the node fails past a new
      block. */
  lemma StopsPastAttached<W(!new), H(!new)>(
      anonymous: W, now: int, view: View<H>, height: int, history: seq<Item<W, H>>, pending: seq<Item<W, H>>)
    requires view.View?
    ensures var r := ScanFrom(anonymous, now, view, height, Work(history, pending, [], []));
            r.Stopped? && r.work.attached != [] <==> pending != [] && FailsPastNewBlock(view, history, height)
  {
    var work := Work(history, pending, [], []);
    var r := ScanFrom(anonymous, now, view, height, work);
    StopsWhereFails(anonymous, now, view, height, work);
    ScanAttributes(anonymous, now, view, height, work);
    if r.Stopped? {
      AnyNewBlock(view, history, height, r.at);
      assert FailsFirst(view, height, r.at);
    }
  }

  // ----- the order of the waiting events

  /** The events found at `time`, in order. */
  function FoundAt<W(!new), H(!new)>(time: int, events: seq<Item<W, H>>): seq<Item<W, H>> {
    Class((event: Item<W, H>) => event.foundAt == time, events)
  }

  /** Sorted, and those found at the same time in the order they were in. */
  lemma OldestFirstSorted<W(!new), H(!new)>(pending: seq<Item<W, H>>)
    ensures forall i, j :: 0 <= i < j < |OldestFirst(pending)| ==>
              OldestFirst(pending)[i].foundAt <= OldestFirst(pending)[j].foundAt
    ensures forall time :: FoundAt(time, OldestFirst(pending)) == FoundAt(time, pending)
  {
    var le := (a: Item<W, H>, b: Item<W, H>) => Older(a, b);
    SortSorted(le, pending);
    var sorted := OldestFirst(pending);
    forall i, j | 0 <= i < j < |sorted|
      ensures sorted[i].foundAt <= sorted[j].foundAt
    {
      assert le(sorted[i], sorted[j]);
    }
    forall time
      ensures FoundAt(time, sorted) == FoundAt(time, pending)
    {
      SortStable(le, (event: Item<W, H>) => event.foundAt == time, pending);
    }
  }

  // ----- sorting keeps heights distinct

  /** No entry of `s` has the height of `x`. */
  ghost predicate Apart<W, H>(x: Item<W, H>, s: seq<Item<W, H>>) {
    x.height.Some? ==> forall i :: 0 <= i < |s| ==> s[i].height != x.height
  }

  lemma ConsDistinct<W, H>(x: Item<W, H>, s: seq<Item<W, H>>)
    requires DistinctHeights(s) && Apart(x, s)
    ensures DistinctHeights([x] + s)
  {
  }

  lemma {:induction false} InsertApart<W(!new), H(!new)>(le: (Item<W, H>, Item<W, H>) -> bool, y: Item<W, H>,
      x: Item<W, H>, s: seq<Item<W, H>>)
    requires Apart(y, s) && (y.height.Some? ==> x.height != y.height)
    ensures Apart(y, Insert(le, x, s))
  {
    if s != [] && !le(x, s[0]) {
      InsertApart(le, y, x, s[1..]);
    }
  }

  lemma {:induction false} InsertDistinct<W(!new), H(!new)>(le: (Item<W, H>, Item<W, H>) -> bool, x: Item<W, H>,
      s: seq<Item<W, H>>)
    requires DistinctHeights(s) && Apart(x, s)
    ensures DistinctHeights(Insert(le, x, s))
  {
    if s == [] || le(x, s[0]) {
      ConsDistinct(x, s);
    } else {
      InsertDistinct(le, x, s[1..]);
      InsertApart(le, s[0], x, s[1..]);
      ConsDistinct(s[0], Insert(le, x, s[1..]));
    }
  }

  lemma {:induction false} SortApart<W(!new), H(!new)>(le: (Item<W, H>, Item<W, H>) -> bool, y: Item<W, H>,
      s: seq<Item<W, H>>)
    requires Apart(y, s)
    ensures Apart(y, Sort(le, s))
  {
    if s != [] {
      SortApart(le, y, s[1..]);
      InsertApart(le, y, s[0], Sort(le, s[1..]));
    }
  }

  lemma {:induction false} SortDistinct<W(!new), H(!new)>(le: (Item<W, H>, Item<W, H>) -> bool, s: seq<Item<W, H>>)
    requires DistinctHeights(s)
    ensures DistinctHeights(Sort(le, s))
  {
    if s != [] {
      SortDistinct(le, s[1..]);
      SortApart(le, s[0], s[1..]);
      InsertDistinct(le, s[0], Sort(le, s[1..]));
    }
  }

  lemma StoredDistinct<W(!new), H(!new)>(state: State<W, H>, tip: nat, scanned: Scanned<W, H>)
    requires DistinctHeights(scanned.work.history)
    ensures DistinctHeights(Stored(state, tip, scanned).history)
  {
    SortDistinct((a: Item<W, H>, b: Item<W, H>) => Higher(a, b), scanned.work.history);
  }
}
