/** backend/permissionless_telemetry.py, in place: the stored state that `snapshot` and
    `scan_qbit_blocks` update on every poll. */
module Telemetry {
  import opened Results
  import opened BlockHistory
  import opened BlockPolls

  lemma {:induction false} PositionAppend<W, H>(key: Key<H>, items: seq<Item<W, H>>, item: Item<W, H>)
    ensures Position(key, items + [item])
         == if Position(key, items).Some? then Position(key, items) else if KeyOf(item) == key then Some(|items|)
            else None
  {
    if items == [] {
      assert items + [item] == [item];
    } else {
      PositionAppend(key, items[1..], item);
      assert (items + [item])[1..] == items[1..] + [item];
    }
  }

  lemma {:induction false} PositionUpdate<W, H>(key: Key<H>, items: seq<Item<W, H>>, at: nat, item: Item<W, H>)
    requires at < |items| && KeyOf(item) == KeyOf(items[at])
    ensures Position(key, items[at := item]) == Position(key, items)
  {
    if at > 0 {
      PositionUpdate(key, items[1..], at - 1, item);
      assert items[at := item][1..] == items[1..][at - 1 := item];
    } else {
      assert items[at := item][1..] == items[1..];
    }
  }

  /** `positions` finds every entry that has a key. */
  ghost predicate Indexes<W, H(!new)>(positions: map<Key<H>, nat>, items: seq<Item<W, H>>) {
    forall key :: key != NoKey ==> Position(key, items) == if key in positions then Some(positions[key]) else None
  }

  lemma IndexAppend<W, H(!new)>(positions: map<Key<H>, nat>, items: seq<Item<W, H>>, item: Item<W, H>)
    requires Indexes(positions, items) && (KeyOf(item) == NoKey || KeyOf(item) !in positions)
    ensures Indexes(if KeyOf(item) == NoKey then positions else positions[KeyOf(item) := |items|], items + [item])
  {
    forall key: Key<H> | key != NoKey
      ensures Position(key, items + [item])
           == if Position(key, items).Some? then Position(key, items) else if KeyOf(item) == key then Some(|items|)
              else None
    {
      PositionAppend(key, items, item);
    }
  }

  lemma IndexUpdate<W, H(!new)>(positions: map<Key<H>, nat>, items: seq<Item<W, H>>, at: nat, item: Item<W, H>)
    requires Indexes(positions, items) && at < |items| && KeyOf(item) == KeyOf(items[at])
    ensures Indexes(positions, items[at := item])
  {
    forall key: Key<H> | key != NoKey
      ensures Position(key, items[at := item]) == Position(key, items)
    {
      PositionUpdate(key, items, at, item);
    }
  }

  lemma MergeKeepsKey<W, H>(names: Names<W>, current: Item<W, H>, incoming: Item<W, H>)
    requires KeyOf(incoming) == KeyOf(current)
    ensures KeyOf(Merge(names, current, incoming)) == KeyOf(current)
  {
  }

  /** `reconcile_block_history` */
  method Reconcile<W(==), H(!new, ==)>(names: Names<W>, history: seq<Item<W, H>>) returns (r: seq<Item<W, H>>)
    ensures r == Cut(Reconciled(names, history))
  {
    var reconciled: seq<Item<W, H>>, positions: map<Key<H>, nat> := [], map[];
    for i := 0 to |history|
      invariant reconciled == Reconciled(names, history[..i])
      invariant Indexes(positions, reconciled)
    {
      var item := history[i];
      var key := KeyOf(item);
      assert history[..i + 1][..i] == history[..i];
      if key == NoKey || key !in positions {
        IndexAppend(positions, reconciled, item);
        if key != NoKey {
          positions := positions[key := |reconciled|];
        }
        reconciled := reconciled + [item];
      } else {
        var at := positions[key];
        assert Position(key, reconciled) == Some(at);
        var merged := Merge(names, reconciled[at], item);
        MergeKeepsKey(names, reconciled[at], item);
        IndexUpdate(positions, reconciled, at, merged);
        reconciled := reconciled[at := merged];
      }
    }
    assert history[..|history|] == history;
    r := Cut(reconciled);
  }

  ghost predicate Knows<W, H>(known: set<int>, history: seq<Item<W, H>>) {
    forall h :: h in known <==> HasHeight(history, h)
  }

  lemma KnownGrows<W, H>(history: seq<Item<W, H>>, item: Item<W, H>)
    requires item.height.Some?
    ensures forall h :: HasHeight([item] + history, h) <==> h == item.height.value || HasHeight(history, h)
  {
    var r := [item] + history;
    assert r[0] == item;
    assert forall i :: 0 <= i < |history| ==> r[i + 1] == history[i];
  }

  /** A fetched block: `known` are the heights in the history. */
  method ExamineBlock<W, H>(anonymous: W, now: int, work: Work<W, H>, known: set<int>, height: int, hash: H, pays: bool)
      returns (next: Work<W, H>, heights: set<int>)
    requires Knows(known, work.history)
    ensures next == Examine(anonymous, now, work, height, hash, pays) && Knows(heights, next.history)
  {
    heights := known;
    next := work.(examined := work.examined + [height]);
    if pays {
      if height in known {
        SetHashApart(work.history, height, hash);
        next := next.(history := SetHash(work.history, height, hash));
      } else {
        var item := Item(now, Some(height), anonymous, Some(hash));
        if |work.pending| > 0 {
          item := work.pending[0].(height := Some(height), hash := Some(hash));
          next := next.(attached := work.attached + [work.pending[0]], pending := work.pending[1..]);
        }
        KnownGrows(work.history, item);
        next := next.(history := [item] + work.history);
        heights := known + {height};
      }
    }
  }

  /** The loop of `scan_qbit_blocks`. */
  method ScanHeights<W, H>(anonymous: W, view: View<H>, now: int, start: int, history: seq<Item<W, H>>,
      pending: seq<Item<W, H>>)
      returns (r: Scanned<W, H>)
    requires view.View?
    ensures r == ScanFrom(anonymous, now, view, start, Work(history, pending, [], []))
  {
    var known := set i | 0 <= i < |history| && history[i].height.Some? :: history[i].height.value;
    var work, height := Work(history, pending, [], []), start;
    assert Knows(known, history);
    while height <= view.tip
      invariant Knows(known, work.history)
      invariant ScanFrom(anonymous, now, view, height, work)
                == ScanFrom(anonymous, now, view, start, Work(history, pending, [], []))
      decreases view.tip - height
    {
      match view.at(height) {
        case Fails =>
          return Stopped(work, height);
        case Block(hash, _) =>
          work, known := ExamineBlock(anonymous, now, work, known, height, hash, view.Pays(height));
      }
      height := height + 1;
    }
    r := Reached(work);
  }

  class Store<W(!new, ==), H(!new, ==)> {
    const names: Names<W>
    var history: seq<Item<W, H>>
    var pending: seq<Item<W, H>>
    var cursor: Option<int>

    constructor (names: Names<W>)
      ensures this.names == names && history == [] && pending == [] && cursor == None
    {
      this.names, history, pending, cursor := names, [], [], None;
    }

    ghost function Value(): State<W, H>
      reads this
    {
      State(history, pending, cursor)
    }

    /** `snapshot`, of the block events that are new since the last one. */
    method Snapshot(events: seq<Item<W, H>>) returns (matched: seq<Item<W, H>>)
      modifies this
      ensures cursor == old(cursor)
      ensures Taken(history, pending, matched) == TakenOf(names, old(Value()), events)
    {
      history := Reconcile(names, history);
      matched := [];
      ghost var begin := Taken(history, pending, []);
      for i := 0 to |events|
        invariant Taken(history, pending, matched) == TakeAll(names, begin, events[..i])
        invariant cursor == old(cursor)
      {
        assert events[..i + 1][..i] == events[..i];
        var event := events[i];
        match Closest(names, history, event)
        case Some(at) =>
          history := history[at := history[at].(worker := event.worker, foundAt := event.foundAt)];
          matched := matched + [event];
        case None =>
          pending := pending + [event];
      }
      assert events[..|events|] == events;
    }

    /** `scan_qbit_blocks`, and the history and cursor that `main` stores of it. */
    method Scan(view: View<H>, now: int) returns (attached: seq<Item<W, H>>, examined: seq<int>)
      modifies this
      ensures view.Unreachable? ==> Value() == old(Value()) && attached == [] && examined == []
      ensures view.View? ==>
                var r := ScanOf(names, now, view, old(Value()));
                Value() == Stored(old(Value()), view.tip, r) && attached == r.work.attached
                  && examined == r.work.examined
    {
      attached, examined := [], [];
      if view.Unreachable? {
        return;
      }
      ghost var begin := Value();
      var scanned := ScanHeights(names.anonymous, view, now, StartOf(cursor, view.tip), Revalidated(history, view),
                                 OldestFirst(pending));
      attached, examined := scanned.work.attached, scanned.work.examined;
      match scanned
      case Stopped(work, at) =>
        history, cursor := work.history, Some(at - 1);
      case Reached(work) =>
        pending := work.pending;
        history, cursor := Cut(HighestFirst(work.history)), Some(view.tip);
    }

    /** One poll. */
    method Poll(events: seq<Item<W, H>>, view: View<H>, now: int)
      modifies this
      ensures Value() == PollOf(names, old(Value()), BlockPolls.Poll(events, now, view)).next
      ensures DistinctHeights(history)
    {
      ghost var before := Value();
      var matched := Snapshot(events);
      var attached, examined := Scan(view, now);
      HeightsStayDistinct(names, before, BlockPolls.Poll(events, now, view));
    }
  }
}
