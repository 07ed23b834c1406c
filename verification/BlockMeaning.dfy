/** What one poll of backend/permissionless_telemetry.py makes of the history, entry by entry. */
module BlockMeaning {
  import opened Common
  import opened Results
  import opened Sorting
  import opened BlockHistory
  import opened BlockPolls

  // ----- the history reconciled

  /** Entries of one block: of one height, or of none and one hash. */
  predicate SameBlock<W, H(==)>(a: Item<W, H>, b: Item<W, H>) {
    if a.height.Some? then b.height == a.height else b.height == None && a.hash.Some? && b.hash == a.hash
  }

  /** It has a worker's name. */
  predicate Named<W(==), H>(names: Names<W>, item: Item<W, H>) {
    item.worker != names.blank && item.worker != names.anonymous
  }

  /** No entry before the i-th is of its block. */
  predicate IsFirst<W, H(==)>(items: seq<Item<W, H>>, i: nat) {
    i < |items| && forall j :: 0 <= j < i ==> !SameBlock(items[j], items[i])
  }

  /** Where an entry's parts come from: the first item of its block, and those its worker and hash are of. */
  datatype Source = Source(first: nat, worker: nat, hash: nat)

  /** The item at `at` is the first of the block, or a later one of it. */
  predicate OfBlock<W, H(==)>(items: seq<Item<W, H>>, first: nat, at: nat) {
    first <= at < |items| && (at == first || SameBlock(items[first], items[at]))
  }

  /** A later item of the block, at `j`, with a worker's name. */
  predicate NamedAt<W(==), H(==)>(names: Names<W>, items: seq<Item<W, H>>, first: nat, j: nat) {
    first < j < |items| && SameBlock(items[first], items[j]) && Named(names, items[j])
  }

  predicate HashedAt<W, H(==)>(items: seq<Item<W, H>>, first: nat, j: nat) {
    first < j < |items| && SameBlock(items[first], items[j]) && items[j].hash.Some?
  }

  predicate AnonymousAt<W(==), H(==)>(names: Names<W>, items: seq<Item<W, H>>, first: nat, j: nat) {
    first < j < |items| && SameBlock(items[first], items[j]) && items[j].worker == names.anonymous
  }

  /** The worker's name is of the last item after the first that has one, and so is the time; without one,
      they are the first's, or the name of the unnamed worker in place of none. */
  ghost predicate WorkerFrom<W, H>(names: Names<W>, items: seq<Item<W, H>>, from: Source, r: Item<W, H>) {
    && OfBlock(items, from.first, from.worker)
    && (from.worker > from.first ==> NamedAt(names, items, from.first, from.worker))
    && (forall j: nat :: NamedAt(names, items, from.first, j) ==> j <= from.worker)
    && r.foundAt == items[from.worker].foundAt
    && if from.worker > from.first || items[from.first].worker != names.blank then r.worker == items[from.worker].worker
       else if exists j: nat :: AnonymousAt(names, items, from.first, j) then r.worker == names.anonymous
       else r.worker == names.blank
  }

  /** The hash is of the last item that has one. */
  ghost predicate HashFrom<W, H>(items: seq<Item<W, H>>, from: Source, r: Item<W, H>) {
    && OfBlock(items, from.first, from.hash) && r.hash == items[from.hash].hash
    && (from.hash > from.first ==> HashedAt(items, from.first, from.hash))
    && forall j: nat :: HashedAt(items, from.first, j) ==> j <= from.hash
  }

  /** `r` is the one entry of a block. */
  ghost predicate IsEntry<W, H>(names: Names<W>, items: seq<Item<W, H>>, from: Source, r: Item<W, H>) {
    && IsFirst(items, from.first) && r.height == items[from.first].height
    && WorkerFrom(names, items, from, r) && HashFrom(items, from, r)
  }

  lemma KeyExactly<W, H>(a: Item<W, H>, b: Item<W, H>)
    ensures SameBlock(a, b) <==> KeyOf(a) != NoKey && KeyOf(a) == KeyOf(b)
  {
  }

  lemma LastAdded<T>(items: seq<T>, item: T)
    ensures |items + [item]| == |items| + 1 && (items + [item])[|items|] == item
    ensures forall j :: 0 <= j < |items| ==> (items + [item])[j] == items[j]
  {
  }

  /** One more item of another block. */
  lemma OtherItem<W, H>(names: Names<W>, items: seq<Item<W, H>>, item: Item<W, H>, from: Source, r: Item<W, H>)
    requires IsEntry(names, items, from, r) && !SameBlock(items[from.first], item)
    ensures IsEntry(names, items + [item], from, r)
  {
    var more := items + [item];
    LastAdded(items, item);
    forall j: nat
      ensures NamedAt(names, more, from.first, j) <==> NamedAt(names, items, from.first, j)
      ensures HashedAt(more, from.first, j) <==> HashedAt(items, from.first, j)
      ensures AnonymousAt(names, more, from.first, j) <==> AnonymousAt(names, items, from.first, j)
    {
    }
  }

  /** One more item of its own. */
  lemma OwnItem<W, H>(names: Names<W>, items: seq<Item<W, H>>, item: Item<W, H>, from: Source, r: Item<W, H>)
      returns (now: Source)
    requires names.blank != names.anonymous
    requires IsEntry(names, items, from, r) && SameBlock(items[from.first], item)
    ensures now.first == from.first && IsEntry(names, items + [item], now, Merge(names, r, item))
  {
    var more, n := items + [item], |items|;
    LastAdded(items, item);
    now := Source(from.first, if Named(names, item) then n else from.worker,
                  if item.hash.Some? then n else from.hash);
    forall j: nat
      ensures NamedAt(names, more, from.first, j) <==>
              NamedAt(names, items, from.first, j) || (j == n && Named(names, item))
      ensures HashedAt(more, from.first, j) <==> HashedAt(items, from.first, j) || (j == n && item.hash.Some?)
      ensures AnonymousAt(names, more, from.first, j) <==>
              AnonymousAt(names, items, from.first, j) || (j == n && item.worker == names.anonymous)
    {
    }
    assert AnonymousAt(names, more, from.first, n) <==> item.worker == names.anonymous;
    if j: nat :| AnonymousAt(names, items, from.first, j) {
      assert AnonymousAt(names, more, from.first, j);
    }
  }

  lemma NewItem<W, H>(names: Names<W>, items: seq<Item<W, H>>, item: Item<W, H>)
    requires forall j :: 0 <= j < |items| ==> !SameBlock(items[j], item)
    ensures IsEntry(names, items + [item], Source(|items|, |items|, |items|), item)
  {
    LastAdded(items, item);
  }

  /** The entries, with where each comes from: the first items of the blocks, in order. */
  ghost predicate AreEntries<W, H>(names: Names<W>, items: seq<Item<W, H>>, from: seq<Source>, r: seq<Item<W, H>>) {
    && |from| == |r|
    && (forall p :: 0 <= p < |r| ==> IsEntry(names, items, from[p], r[p]))
    && (forall p, q :: 0 <= p < q < |r| ==> from[p].first < from[q].first)
    && (forall i: nat :: IsFirst(items, i) ==> HasFirst(from, i))
  }

  predicate HasFirst(from: seq<Source>, i: nat) {
    exists p :: 0 <= p < |from| && from[p].first == i
  }

  lemma OtherEntries<W, H>(names: Names<W>, items: seq<Item<W, H>>, item: Item<W, H>, from: seq<Source>,
      r: seq<Item<W, H>>)
    requires AreEntries(names, items, from, r)
    requires forall j :: 0 <= j < |items| ==> !SameBlock(items[j], item)
    ensures var n := |items|; AreEntries(names, items + [item], from + [Source(n, n, n)], r + [item])
  {
    var n, more, all := |items|, items + [item], from + [Source(|items|, |items|, |items|)];
    NewItem(names, items, item);
    forall p | 0 <= p < |r|
      ensures IsEntry(names, more, from[p], r[p])
    {
      OtherItem(names, items, item, from[p], r[p]);
    }
    forall i: nat | IsFirst(more, i)
      ensures HasFirst(all, i)
    {
      if i == n {
        assert all[|from|].first == n;
      } else {
        FirstBefore(items, item, i);
        var p :| 0 <= p < |from| && from[p].first == i;
        assert all[p].first == i;
      }
    }
  }

  lemma FirstBefore<W, H>(items: seq<Item<W, H>>, item: Item<W, H>, i: nat)
    requires i < |items|
    ensures IsFirst(items + [item], i) <==> IsFirst(items, i)
  {
    LastAdded(items, item);
    if IsFirst(items + [item], i) {
      forall j | 0 <= j < i
        ensures !SameBlock(items[j], items[i])
      {
        assert !SameBlock((items + [item])[j], (items + [item])[i]);
      }
    }
  }

  /** An item is of the entry's block exactly when it is of that of the entry's first. */
  lemma FirstIsEntry<W, H>(names: Names<W>, items: seq<Item<W, H>>, from: Source, r: Item<W, H>, item: Item<W, H>)
    requires IsEntry(names, items, from, r)
    ensures SameBlock(items[from.first], item) <==> SameBlock(r, item)
  {
  }

  /** No other entry is of the item's block. */
  lemma OthersApart<W, H>(r: seq<Item<W, H>>, at: nat, p: nat, item: Item<W, H>)
    requires DistinctKeys(r) && at < |r| && p < |r| && p != at && SameBlock(r[at], item)
    ensures !SameBlock(r[p], item)
  {
    KeyExactly(r[at], item);
    KeyExactly(r[p], item);
  }

  lemma NotFirst<W, H>(items: seq<Item<W, H>>, item: Item<W, H>, first: nat)
    requires first < |items| && SameBlock(items[first], item)
    ensures !IsFirst(items + [item], |items|)
  {
    LastAdded(items, item);
    assert SameBlock((items + [item])[first], (items + [item])[|items|]);
  }

  lemma SameFirsts<W, H>(items: seq<Item<W, H>>, item: Item<W, H>, from: seq<Source>, now: seq<Source>, first: nat)
    requires first < |items| && SameBlock(items[first], item)
    requires |now| == |from| && forall p :: 0 <= p < |from| ==> now[p].first == from[p].first
    requires forall i: nat :: IsFirst(items, i) ==> HasFirst(from, i)
    ensures forall i: nat :: IsFirst(items + [item], i) ==> HasFirst(now, i)
  {
    NotFirst(items, item, first);
    forall i: nat | IsFirst(items + [item], i)
      ensures HasFirst(now, i)
    {
      FirstBefore(items, item, i);
      var p :| 0 <= p < |from| && from[p].first == i;
      assert now[p].first == i;
    }
  }

  lemma OwnEntries<W, H>(names: Names<W>, items: seq<Item<W, H>>, item: Item<W, H>, from: seq<Source>,
      r: seq<Item<W, H>>, at: nat) returns (now: seq<Source>)
    requires names.blank != names.anonymous && AreEntries(names, items, from, r)
    requires at < |r| && SameBlock(r[at], item) && DistinctKeys(r)
    ensures AreEntries(names, items + [item], now, r[at := Merge(names, r[at], item)])
  {
    FirstIsEntry(names, items, from[at], r[at], item);
    var source := OwnItem(names, items, item, from[at], r[at]);
    now := from[at := source];
    forall p | 0 <= p < |r| && p != at
      ensures IsEntry(names, items + [item], from[p], r[p])
    {
      OthersApart(r, at, p, item);
      FirstIsEntry(names, items, from[p], r[p], item);
      OtherItem(names, items, item, from[p], r[p]);
    }
    SameFirsts(items, item, from, now, source.first);
  }

  /** Whatever history is stored, reconciling it leaves one entry a block, in the order the blocks are first
      met, each from the items of its block. */
  lemma {:induction false} ReconciledEntries<W, H>(names: Names<W>, items: seq<Item<W, H>>) returns (from: seq<Source>)
    requires names.blank != names.anonymous
    ensures AreEntries(names, items, from, Reconciled(names, items))
  {
    from := [];
    if items != [] {
      var n := |items| - 1;
      var before, item := items[..n], items[n];
      var r := Reconciled(names, before);
      from := ReconciledEntries(names, before);
      ReconciledDistinct(names, before, 0);
      assert items == before + [item];
      var at := Position(KeyOf(item), r);
      if KeyOf(item) != NoKey && at.Some? {
        KeyExactly(r[at.value], item);
        from := OwnEntries(names, before, item, from, r, at.value);
      } else {
        NoneBefore(names, before, from, r, item);
        OtherEntries(names, before, item, from, r);
        from := from + [Source(n, n, n)];
      }
    }
  }

  /** An item whose key no entry has is of no earlier item's block. */
  lemma NoneBefore<W, H>(names: Names<W>, items: seq<Item<W, H>>, from: seq<Source>, r: seq<Item<W, H>>,
      item: Item<W, H>)
    requires AreEntries(names, items, from, r)
    requires KeyOf(item) == NoKey || forall p :: 0 <= p < |r| ==> KeyOf(r[p]) != KeyOf(item)
    ensures forall j :: 0 <= j < |items| ==> !SameBlock(items[j], item)
  {
    forall j | 0 <= j < |items|
      ensures !SameBlock(items[j], item)
    {
      if SameBlock(items[j], item) {
        var i := FirstOf(items, j);
        var p :| 0 <= p < |from| && from[p].first == i;
        KeyExactly(items[j], item);
        KeyExactly(items[i], items[j]);
        KeyExactly(items[i], item);
        FirstIsEntry(names, items, from[p], r[p], item);
        KeyExactly(r[p], item);
      }
    }
  }

  /** The first item of the j-th's block. */
  lemma {:induction false} FirstOf<W, H>(items: seq<Item<W, H>>, j: nat) returns (i: nat)
    requires j < |items|
    ensures i <= j && IsFirst(items, i) && (i == j || SameBlock(items[i], items[j]))
  {
    if IsFirst(items, j) {
      i := j;
    } else {
      var k :| 0 <= k < j && SameBlock(items[k], items[j]);
      i := FirstOf(items, k);
      KeyExactly(items[k], items[j]);
      KeyExactly(items[i], items[k]);
      KeyExactly(items[i], items[j]);
    }
  }

  // ----- a new block event

  /** A block with a hash, of an unnamed worker, found at most 300 seconds before or after the event. */
  predicate MayBeOf<W(==), H>(names: Names<W>, item: Item<W, H>, event: Item<W, H>) {
    item.hash.Some? && item.worker == names.anonymous && -300 <= item.foundAt - event.foundAt <= 300
  }

  function Apart(a: int, b: int): nat {
    if a >= b then a - b else b - a
  }

  /** The first of those closest in time. */
  predicate IsClosest<W(==), H>(names: Names<W>, history: seq<Item<W, H>>, event: Item<W, H>, at: nat) {
    && at < |history| && MayBeOf(names, history[at], event)
    && forall i :: 0 <= i < |history| && MayBeOf(names, history[i], event) ==>
         if i < at then Apart(history[at].foundAt, event.foundAt) < Apart(history[i].foundAt, event.foundAt)
         else Apart(history[at].foundAt, event.foundAt) <= Apart(history[i].foundAt, event.foundAt)
  }

  lemma {:induction false} ClosestExactly<W, H>(names: Names<W>, history: seq<Item<W, H>>, event: Item<W, H>)
    ensures match Closest(names, history, event)
            case Some(at) => IsClosest(names, history, event, at)
            case None => forall i :: 0 <= i < |history| ==> !MayBeOf(names, history[i], event)
  {
    if history != [] {
      var n := |history| - 1;
      ClosestExactly(names, history[..n], event);
      assert forall i :: 0 <= i < n ==> history[..n][i] == history[i];
      assert forall i :: 0 <= i < n && Confirmed(names, history[i], event) <==>
             0 <= i < n && MayBeOf(names, history[i], event);
    }
  }

  /** An event gives its worker and its time to the closest block it may be of, and waits behind the
      others when there is none. */
  lemma TakesExactly<W, H>(names: Names<W>, t: Taken<W, H>, event: Item<W, H>)
    ensures var r := Take(names, t, event);
            if r.pending == t.pending then
              exists at: nat :: IsClosest(names, t.history, event, at) && r.matched == t.matched + [event]
                && r.history == t.history[at := Item(event.foundAt, t.history[at].height, event.worker,
                                                     t.history[at].hash)]
            else
              && (forall i :: 0 <= i < |t.history| ==> !MayBeOf(names, t.history[i], event))
              && r == t.(pending := t.pending + [event])
  {
    ClosestExactly(names, t.history, event);
    var at := Closest(names, t.history, event);
    if at.Some? {
      assert IsClosest(names, t.history, event, at.value);
    } else {
      assert |t.pending + [event]| != |t.pending|;
    }
  }

  // ----- entries without a hash

  /** The node says that the entry's block does not pay. */
  predicate Disproved<W, H>(view: View<H>, item: Item<W, H>)
    requires view.View?
  {
    && view.address && item.height.Some? && item.hash == None
    && match view.at(item.height.value)
       case Fails => false
       case Block(_, pays) => !pays
  }

  /** It says that it does, and with which hash. */
  predicate Proved<W, H>(view: View<H>, item: Item<W, H>)
    requires view.View?
  {
    && view.address && item.height.Some? && item.hash == None
    && match view.at(item.height.value)
       case Fails => false
       case Block(_, pays) => pays
  }

  predicate Rising(at: seq<nat>, n: nat) {
    (forall i :: 0 <= i < |at| ==> at[i] < n) && forall i, j :: 0 <= i < j < |at| ==> at[i] < at[j]
  }

  /** The k-th entry left is the one at `at`, with its block's hash if the node gave it one. */
  predicate LeftAs<W(==), H(==)>(view: View<H>, item: Item<W, H>, now: Item<W, H>)
    requires view.View?
  {
    if Proved(view, item) then now == item.(hash := Some(view.at(item.height.value).hash)) else now == item
  }

  /** Looking entries up again drops exactly those whose block does not pay, and keeps the others in order. */
  lemma {:induction false} RevalidatedExactly<W, H>(history: seq<Item<W, H>>, view: View<H>) returns (at: seq<nat>)
    requires view.View?
    ensures var r := Revalidated(history, view);
            && |at| == |r| && Rising(at, |history|)
            && (forall k :: 0 <= k < |r| ==> LeftAs(view, history[at[k]], r[k]))
            && (forall i :: 0 <= i < |history| ==> (i in at <==> !Disproved(view, history[i])))
  {
    at := [];
    if history != [] {
      var n := |history| - 1;
      var before := RevalidatedExactly(history[..n], view);
      var r := Revalidated(history[..n], view);
      at := before;
      if !Disproved(view, history[n]) {
        at := before + [n];
        assert Revalidated(history, view) == r + [Revalidated(history, view)[|r|]];
      } else {
        assert Revalidated(history, view) == r;
      }
      assert forall i :: 0 <= i < n ==> history[..n][i] == history[i];
      forall i | 0 <= i < |history|
        ensures i in at <==> !Disproved(view, history[i])
      {
        if i < n {
          assert i in before <==> !Disproved(view, history[i]);
        } else {
          assert n !in before;
          assert i in at <==> at == before + [n];
        }
      }
    }
  }

  // ----- entries the scan already knows

  /** The entry is as it was, but for the hash of its block if the scan found the block to pay. */
  predicate Updated<W(==), H(==)>(view: View<H>, from: int, end: int, was: Item<W, H>, now: Item<W, H>)
    requires view.View?
  {
    if was.height.Some? && from <= was.height.value < end && view.address && view.at(was.height.value).Block?
       && view.at(was.height.value).pays then now == was.(hash := Some(view.at(was.height.value).hash))
    else now == was
  }

  /** The entries of `before` are the last of `after`, each so. */
  ghost predicate AllUpdated<W, H>(view: View<H>, from: int, end: int, before: seq<Item<W, H>>, after: seq<Item<W, H>>)
    requires view.View?
  {
    && |before| <= |after|
    && forall i :: 0 <= i < |before| ==> Updated(view, from, end, before[i], after[|after| - |before| + i])
  }

  lemma {:induction false} SetHashExactly<W, H>(history: seq<Item<W, H>>, height: int, hash: H)
    requires DistinctHeights(history)
    ensures var r := SetHash(history, height, hash);
            forall i :: 0 <= i < |r| ==>
              r[i] == if history[i].height == Some(height) then history[i].(hash := Some(hash)) else history[i]
  {
    if history != [] {
      SetHashExactly(history[..|history| - 1], height, hash);
    }
  }

  lemma HashUpdates<W, H>(view: View<H>, height: int, history: seq<Item<W, H>>)
    requires view.View? && view.at(height).Block? && view.Pays(height) && DistinctHeights(history)
    ensures AllUpdated(view, height, height + 1, history, SetHash(history, height, view.at(height).hash))
  {
    SetHashExactly(history, height, view.at(height).hash);
  }

  lemma FrontUpdates<W, H>(view: View<H>, height: int, history: seq<Item<W, H>>, front: seq<Item<W, H>>)
    requires view.View? && (!view.Pays(height) || !HasHeight(history, height))
    ensures AllUpdated(view, height, height + 1, history, front + history)
  {
    var after := front + history;
    forall i | 0 <= i < |history|
      ensures Updated(view, height, height + 1, history[i], after[|front| + i])
    {
      assert after[|front| + i] == history[i];
    }
  }

  lemma ExamineUpdates<W, H>(anonymous: W, now: int, view: View<H>, height: int, work: Work<W, H>)
    requires view.View? && view.at(height).Block? && DistinctHeights(work.history)
    ensures var next := Examine(anonymous, now, work, height, view.at(height).hash, view.Pays(height));
            AllUpdated(view, height, height + 1, work.history, next.history)
  {
    var history, next := work.history, Examine(anonymous, now, work, height, view.at(height).hash, view.Pays(height));
    if view.Pays(height) && HasHeight(history, height) {
      HashUpdates(view, height, history);
    } else if view.Pays(height) {
      assert next.history == [next.history[0]] + history;
      FrontUpdates(view, height, history, [next.history[0]]);
    } else {
      assert next.history == [] + history;
      FrontUpdates(view, height, history, []);
    }
  }

  lemma UpdatedThen<W, H>(view: View<H>, from: int, end: int, a: seq<Item<W, H>>, b: seq<Item<W, H>>,
      c: seq<Item<W, H>>)
    requires view.View? && from + 1 <= end
    requires AllUpdated(view, from, from + 1, a, b) && AllUpdated(view, from + 1, end, b, c)
    ensures AllUpdated(view, from, end, a, c)
  {
    forall i | 0 <= i < |a|
      ensures Updated(view, from, end, a[i], c[|c| - |a| + i])
    {
      var j := |b| - |a| + i;
      assert Updated(view, from, from + 1, a[i], b[j]);
      assert Updated(view, from + 1, end, b[j], c[|c| - |b| + j]);
    }
  }

  /** A scan changes no entry it was given but for the hash of a block it found to pay. */
  lemma {:induction false} ScanUpdates<W, H>(anonymous: W, now: int, view: View<H>, height: int, work: Work<W, H>)
    requires view.View? && DistinctHeights(work.history)
    ensures var r := ScanFrom(anonymous, now, view, height, work);
            height <= EndOf(view, height, r)
            && AllUpdated(view, height, EndOf(view, height, r), work.history, r.work.history)
    decreases view.tip - height
  {
    if height <= view.tip && view.at(height).Block? {
      var next := Examine(anonymous, now, work, height, view.at(height).hash, view.Pays(height));
      ExamineUpdates(anonymous, now, view, height, work);
      ExamineDistinct(anonymous, now, work, height, view.at(height).hash, view.Pays(height));
      ScanUpdates(anonymous, now, view, height + 1, next);
      var r := ScanFrom(anonymous, now, view, height, work);
      UpdatedThen(view, height, EndOf(view, height, r), work.history, next.history, r.work.history);
    }
  }

  // ----- what is stored

  function HeightOr0<W, H>(item: Item<W, H>): int {
    if item.height.Some? then item.height.value else 0
  }

  /** The first hundred of `all` in descending height, an entry without a height counting as height 0. */
  ghost predicate IsNewestHundred<W(!new), H(!new)>(kept: seq<Item<W, H>>, all: seq<Item<W, H>>) {
    exists dropped ::
      && multiset(kept + dropped) == multiset(all)
      && |kept| == (if |all| < 100 then |all| else 100)
      && Descending(kept + dropped)
  }

  ghost predicate Descending<W, H>(items: seq<Item<W, H>>) {
    forall i, j :: 0 <= i < j < |items| ==> HeightOr0(items[j]) <= HeightOr0(items[i])
  }

  lemma HighestDescending<W(!new), H(!new)>(history: seq<Item<W, H>>)
    ensures Descending(HighestFirst(history)) && multiset(HighestFirst(history)) == multiset(history)
  {
    var le := (a: Item<W, H>, b: Item<W, H>) => Higher(a, b);
    SortSorted(le, history);
    var sorted := HighestFirst(history);
    forall i, j | 0 <= i < j < |sorted|
      ensures HeightOr0(sorted[j]) <= HeightOr0(sorted[i])
    {
      assert le(sorted[i], sorted[j]);
    }
  }

  lemma CutIsHundred<T>(items: seq<T>)
    ensures |Cut(items)| == (if |items| < 100 then |items| else 100)
    ensures Cut(items) + items[|Cut(items)|..] == items
  {
  }

  /** A scan that reached the tip leaves the hundred highest of the entries it has, highest first, and the
      events it did not attach; one that stopped leaves its history as it stands and every event. */
  lemma StoredExactly<W(!new), H(!new)>(state: State<W, H>, tip: nat, scanned: Scanned<W, H>)
    ensures var stored := Stored(state, tip, scanned);
            && (scanned.Reached? ==>
                  && IsNewestHundred(stored.history, scanned.work.history)
                  && stored.pending == scanned.work.pending && stored.cursor == Some(tip))
            && (scanned.Stopped? ==>
                  && stored.history == scanned.work.history
                  && stored.pending == state.pending && stored.cursor == Some(scanned.at - 1))
  {
    if scanned.Reached? {
      var all := HighestFirst(scanned.work.history);
      HighestDescending(scanned.work.history);
      assert |all| == |scanned.work.history| by {
        assert |multiset(all)| == |multiset(scanned.work.history)|;
      }
      CutIsHundred(all);
      assert Cut(all) + all[|Cut(all)|..] == all;
    }
  }

  /** The reconciled history is cut to its first hundred too. */
  lemma CutFirst<W, H>(names: Names<W>, state: State<W, H>)
    ensures var t := TakenOf(names, state, []);
            && t.history <= Reconciled(names, state.history)
            && |t.history| == (if |Reconciled(names, state.history)| < 100 then |Reconciled(names, state.history)|
                               else 100)
            && t.pending == state.pending && t.matched == []
  {
  }

  /** The first scan of all, when the node answers for every height, examines the tip and the 20 heights
      below it, or every height there is. */
  lemma FirstScan<W(!new), H(!new)>(names: Names<W>, now: int, view: View<H>, state: State<W, H>)
    requires view.View? && state.cursor == None && forall height :: 0 <= height <= view.tip ==> view.at(height).Block?
    ensures var r := ScanOf(names, now, view, state);
            && r.Reached? && |r.work.examined| == (if view.tip < 20 then view.tip + 1 else 21)
            && forall k :: 0 <= k < |r.work.examined| ==>
                 r.work.examined[k] == view.tip - (|r.work.examined| - 1 - k)
  {
    ExaminesInOrder(names.anonymous, now, view, StartOf(None, view.tip),
                    Work(Revalidated(state.history, view), OldestFirst(state.pending), [], []));
  }

  /** A later one goes on right after the cursor. */
  lemma NextScan<W(!new), H(!new)>(names: Names<W>, now: int, view: View<H>, state: State<W, H>, cursor: int)
    requires view.View? && state.cursor == Some(cursor) && cursor < view.tip
    ensures var r := ScanOf(names, now, view, state);
            if view.at(cursor + 1).Fails? then r.Stopped? && r.at == cursor + 1 && r.work.examined == []
            else r.work.examined != [] && r.work.examined[0] == cursor + 1
  {
    ExaminesInOrder(names.anonymous, now, view, cursor + 1,
                    Work(Revalidated(state.history, view), OldestFirst(state.pending), [], []));
  }
}
