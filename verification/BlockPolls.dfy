/** backend/permissionless_telemetry.py: runs of polls, each a snapshot of new block events and then a
    scan, and the program's own loops. */
module BlockPolls {
  import opened Common
  import opened Results
  import opened BlockHistory

  // ----- the snapshot's events

  function Distance(a: int, b: int): nat {
    if a < b then b - a else a - b
  }

  /** A block found by an unnamed worker, close enough in time to be the event's. */
  predicate Confirmed<W(==), H>(names: Names<W>, item: Item<W, H>, event: Item<W, H>) {
    item.hash.Some? && item.worker == names.anonymous && Distance(item.foundAt, event.foundAt) <= 300
  }

  /** The first of the closest confirmed entries. */
  function Closest<W(==), H>(names: Names<W>, history: seq<Item<W, H>>, event: Item<W, H>): (at: Option<nat>)
    ensures at.Some? ==> at.value < |history| && Confirmed(names, history[at.value], event)
    ensures at.None? <==> forall i :: 0 <= i < |history| ==> !Confirmed(names, history[i], event)
    ensures at.Some? ==> forall i :: 0 <= i < |history| && Confirmed(names, history[i], event) ==>
              Distance(history[at.value].foundAt, event.foundAt) <= Distance(history[i].foundAt, event.foundAt)
  {
    if history == [] then None
    else
      var n := |history| - 1;
      var best := Closest(names, history[..n], event);
      if !Confirmed(names, history[n], event) then best
      else if best.Some?
              && Distance(history[best.value].foundAt, event.foundAt) <= Distance(history[n].foundAt, event.foundAt)
        then best
      else Some(n)
  }

  datatype Taken<W, H> = Taken(history: seq<Item<W, H>>, pending: seq<Item<W, H>>, matched: seq<Item<W, H>>)

  function Take<W(==), H>(names: Names<W>, t: Taken<W, H>, event: Item<W, H>): Taken<W, H> {
    match Closest(names, t.history, event)
    case None => t.(pending := t.pending + [event])
    case Some(at) =>
      t.(history := t.history[at := t.history[at].(worker := event.worker, foundAt := event.foundAt)],
         matched := t.matched + [event])
  }

  function TakeAll<W(==), H>(names: Names<W>, t: Taken<W, H>, events: seq<Item<W, H>>): Taken<W, H> {
    if events == [] then t else Take(names, TakeAll(names, t, events[..|events| - 1]), events[|events| - 1])
  }

  function TakenOf<W(==), H(==)>(names: Names<W>, state: State<W, H>, events: seq<Item<W, H>>): Taken<W, H> {
    TakeAll(names, Taken(Cut(Reconciled(names, state.history)), state.pending, []), events)
  }

  lemma TakesOne<W, H>(names: Names<W>, t: Taken<W, H>, event: Item<W, H>)
    ensures var r := Take(names, t, event);
            && multiset(r.matched) + multiset(r.pending) == multiset(t.matched) + multiset(t.pending) + multiset{event}
            && (DistinctHeights(t.history) ==> DistinctHeights(r.history))
  {
  }

  lemma {:induction false} TakesEach<W, H>(names: Names<W>, t: Taken<W, H>, events: seq<Item<W, H>>)
    ensures var r := TakeAll(names, t, events);
            && multiset(r.matched) + multiset(r.pending) == multiset(t.matched) + multiset(t.pending) + multiset(events)
            && (DistinctHeights(t.history) ==> DistinctHeights(r.history))
  {
    if events != [] {
      var n := |events| - 1;
      TakesEach(names, t, events[..n]);
      TakesOne(names, TakeAll(names, t, events[..n]), events[n]);
      assert multiset(events) == multiset(events[..n]) + multiset{events[n]} by {
        assert events == events[..n] + [events[n]];
      }
    }
  }

  // ----- runs of any step

  /** What a poll leaves and did: the events it attached to blocks or matched with blocks, and the
      heights it examined. */
  datatype Outcome<S, E> = Outcome(next: S, attached: seq<E>, matched: seq<E>, examined: seq<int>)

  type Step<!S, !P, E> = (S, P) -> Outcome<S, E>

  function Run<S, P, E>(step: Step<S, P, E>, start: S, polls: seq<P>): Outcome<S, E> {
    if polls == [] then Outcome(start, [], [], [])
    else
      var before := Run(step, start, polls[..|polls| - 1]);
      var last := step(before.next, polls[|polls| - 1]);
      Outcome(last.next, before.attached + last.attached, before.matched + last.matched,
              before.examined + last.examined)
  }

  /** Some poll of the run tears, in the state the polls before it left. */
  predicate AnyTears<S, P, E>(step: Step<S, P, E>, tears: (S, P) -> bool, start: S, polls: seq<P>) {
    polls != [] &&
    (AnyTears(step, tears, start, polls[..|polls| - 1])
     || tears(Run(step, start, polls[..|polls| - 1]).next, polls[|polls| - 1]))
  }

  function All<P, E>(events: P -> seq<E>, polls: seq<P>): seq<E> {
    if polls == [] then [] else All(events, polls[..|polls| - 1]) + events(polls[|polls| - 1])
  }

  /** `settled` is all of `given`, and no more exactly when nothing was torn. */
  predicate Balanced<E(==)>(settled: multiset<E>, given: multiset<E>, torn: bool) {
    settled >= given && (settled == given <==> !torn)
  }

  lemma AddBalanced<E>(s1: multiset<E>, g1: multiset<E>, t1: bool, s2: multiset<E>, g2: multiset<E>, t2: bool)
    requires Balanced(s1, g1, t1) && Balanced(s2, g2, t2)
    ensures Balanced(s1 + s2, g1 + g2, t1 || t2)
  {
    if s1 != g1 {
      var e :| s1[e] != g1[e];
      assert (s1 + s2)[e] > (g1 + g2)[e];
    } else if s2 != g2 {
      var e :| s2[e] != g2[e];
      assert (s1 + s2)[e] > (g1 + g2)[e];
    }
  }

  lemma CancelBalanced<E>(s: multiset<E>, g: multiset<E>, t: bool, x: multiset<E>)
    requires Balanced(s + x, g + x, t)
    ensures Balanced(s, g, t)
  {
    assert s == s + x - x && g == g + x - x;
    forall e
      ensures s[e] >= g[e]
    {
      assert (s + x)[e] >= (g + x)[e];
    }
  }

  function Settled<S, E(==)>(o: Outcome<S, E>, waiting: seq<E>): multiset<E> {
    multiset(o.attached) + multiset(o.matched) + multiset(waiting)
  }

  /** Every event given is attached, matched or waiting, and only once, exactly when nothing was torn. */
  predicate Conserved<S, E(==)>(o: Outcome<S, E>, waited: seq<E>, given: seq<E>, waiting: seq<E>, torn: bool) {
    Balanced(Settled(o, waiting), multiset(waited) + multiset(given), torn)
  }

  lemma Chain<E>(a1: multiset<E>, m1: multiset<E>, w1: multiset<E>, w0: multiset<E>, g1: multiset<E>, t1: bool,
      a2: multiset<E>, m2: multiset<E>, w2: multiset<E>, g2: multiset<E>, t2: bool)
    requires Balanced(a1 + m1 + w1, w0 + g1, t1) && Balanced(a2 + m2 + w2, w1 + g2, t2)
    ensures Balanced((a1 + a2) + (m1 + m2) + w2, w0 + (g1 + g2), t1 || t2)
  {
    AddBalanced(a1 + m1 + w1, w0 + g1, t1, a2 + m2 + w2, w1 + g2, t2);
    assert (a1 + m1 + w1) + (a2 + m2 + w2) == ((a1 + a2) + (m1 + m2) + w2) + w1;
    assert (w0 + g1) + (w1 + g2) == (w0 + (g1 + g2)) + w1;
    CancelBalanced((a1 + a2) + (m1 + m2) + w2, w0 + (g1 + g2), t1 || t2, w1);
  }

  ghost predicate StepConserves<S(!new), P(!new), E>(
      step: Step<S, P, E>, waiting: S -> seq<E>, events: P -> seq<E>, tears: (S, P) -> bool)
  {
    forall s, p :: Conserved(step(s, p), waiting(s), events(p), waiting(step(s, p).next), tears(s, p))
  }

  lemma {:induction false} RunConserves<S(!new), P(!new), E>(
      step: Step<S, P, E>, waiting: S -> seq<E>, events: P -> seq<E>, tears: (S, P) -> bool, start: S, polls: seq<P>)
    requires StepConserves(step, waiting, events, tears)
    ensures Conserved(Run(step, start, polls), waiting(start), All(events, polls),
                      waiting(Run(step, start, polls).next),
                      AnyTears(step, tears, start, polls))
  {
    if polls != [] {
      var n := |polls| - 1;
      RunConserves(step, waiting, events, tears, start, polls[..n]);
      var before := Run(step, start, polls[..n]);
      var last := step(before.next, polls[n]);
      var torn := tears(before.next, polls[n]);
      assert Conserved(last, waiting(before.next), events(polls[n]), waiting(last.next), torn);
      Chain(multiset(before.attached), multiset(before.matched),
            multiset(waiting(before.next)), multiset(waiting(start)),
            multiset(All(events, polls[..n])), AnyTears(step, tears, start, polls[..n]),
            multiset(last.attached), multiset(last.matched),
            multiset(waiting(last.next)), multiset(events(polls[n])), torn);
    }
  }

  /** The next height to examine: past the cursor, or where the first poll that reaches the node starts. */
  function NextHeight<S, P>(cursor: S -> Option<int>, first: P -> Option<int>, start: S, polls: seq<P>): Option<int> {
    if cursor(start).Some? then Some(cursor(start).value + 1)
    else if polls == [] then None
    else
      var before := NextHeight(cursor, first, start, polls[..|polls| - 1]);
      if before.Some? then before else first(polls[|polls| - 1])
  }

  /** The heights examined are exactly those from `next` up to the new cursor, each once and in order;
      none without a next height. */
  predicate Examines<S, E>(o: Outcome<S, E>, next: Option<int>, cursor: Option<int>) {
    match next
    case None => o.examined == [] && cursor == None
    case Some(from) => cursor.Some? && from <= cursor.value + 1 && o.examined == Range(from, cursor.value + 1)
  }

  /** A step does so from the next height of its state. */
  ghost predicate StepExamines<S(!new), P(!new), E>(
      step: Step<S, P, E>, cursor: S -> Option<int>, first: P -> Option<int>, holds: (S, P) -> bool)
  {
    forall s, p :: holds(s, p) ==> Examines(step(s, p), NextHeight(cursor, first, s, [p]), cursor(step(s, p).next))
  }

  predicate HoldsThroughout<S, P, E>(step: Step<S, P, E>, holds: (S, P) -> bool, start: S, polls: seq<P>) {
    polls == [] ||
    (HoldsThroughout(step, holds, start, polls[..|polls| - 1])
     && holds(Run(step, start, polls[..|polls| - 1]).next, polls[|polls| - 1]))
  }

  lemma {:induction false} RunExamines<S(!new), P(!new), E>(
      step: Step<S, P, E>, cursor: S -> Option<int>, first: P -> Option<int>, holds: (S, P) -> bool, start: S,
      polls: seq<P>)
    requires StepExamines(step, cursor, first, holds) && HoldsThroughout(step, holds, start, polls)
    ensures Examines(Run(step, start, polls), NextHeight(cursor, first, start, polls),
                     cursor(Run(step, start, polls).next))
  {
    if polls == [] {
      if cursor(start).Some? {
        assert Range(cursor(start).value + 1, cursor(start).value + 1) == [];
      }
    } else {
      var n := |polls| - 1;
      RunExamines(step, cursor, first, holds, start, polls[..n]);
      var before, last := Run(step, start, polls[..n]), step(Run(step, start, polls[..n]).next, polls[n]);
      OneHeight(cursor, first, before.next, polls[n]);
      assert Examines(last, NextHeight(cursor, first, before.next, [polls[n]]), cursor(last.next));
      var next := NextHeight(cursor, first, start, polls[..n]);
      if next.Some? {
        var middle := cursor(before.next).value + 1;
        JoinRanges(before.examined, last.examined, next.value, middle, cursor(last.next).value + 1);
      } else {
        assert before.examined + last.examined == last.examined;
      }
    }
  }

  lemma OneHeight<S, P>(cursor: S -> Option<int>, first: P -> Option<int>, s: S, p: P)
    ensures NextHeight(cursor, first, s, [p]) == if cursor(s).Some? then Some(cursor(s).value + 1) else first(p)
  {
    assert [p][..0] == [];
  }

  lemma JoinRanges(a: seq<int>, b: seq<int>, from: int, middle: int, to: int)
    requires from <= middle <= to && a == Range(from, middle) && b == Range(middle, to)
    ensures a + b == Range(from, to)
  {
  }

  // ----- polls

  datatype Poll<W, H> = Poll(events: seq<Item<W, H>>, now: int, view: View<H>)

  /** What is stored of a scan after the snapshot left `state`, and what the poll did. */
  function Finish<W(!new), H(!new)>(
      state: State<W, H>, matched: seq<Item<W, H>>, tip: nat, scanned: Scanned<W, H>): Outcome<State<W, H>, Item<W, H>>
  {
    Outcome(Stored(state, tip, scanned), scanned.work.attached, matched, scanned.work.examined)
  }

  /** The state the snapshot leaves. */
  function Snapped<W(!new, ==), H(!new, ==)>(names: Names<W>, state: State<W, H>, poll: Poll<W, H>): State<W, H> {
    var t := TakenOf(names, state, poll.events);
    State(t.history, t.pending, state.cursor)
  }

  function PollOf<W(!new, ==), H(!new, ==)>(
      names: Names<W>, state: State<W, H>, poll: Poll<W, H>): Outcome<State<W, H>, Item<W, H>>
  {
    var taken, matched := Snapped(names, state, poll), TakenOf(names, state, poll.events).matched;
    if poll.view.Unreachable? then Outcome(taken, [], matched, [])
    else Finish(taken, matched, poll.view.tip, ScanOf(names, poll.now, poll.view, taken))
  }

  /** What makes a poll repeat an event: one waits after the snapshot, and from the height the scan
      starts at the node fails past a block that pays and is in no entry of the history. */
  ghost predicate Tears<W(!new), H(!new)>(names: Names<W>, state: State<W, H>, poll: Poll<W, H>) {
    && poll.view.View?
    && var taken := Snapped(names, state, poll);
       && taken.pending != []
       && FailsPastNewBlock(poll.view, Revalidated(taken.history, poll.view), StartOf(state.cursor, poll.view.tip))
  }

  function Polling<W(!new, ==), H(!new, ==)>(names: Names<W>): Step<State<W, H>, Poll<W, H>, Item<W, H>> {
    (state, poll) => PollOf(names, state, poll)
  }

  // ----- distinct heights

  lemma SnapshotDistinct<W, H>(names: Names<W>, state: State<W, H>, events: seq<Item<W, H>>)
    ensures DistinctHeights(TakenOf(names, state, events).history)
  {
    ReconciledDistinct(names, state.history, 0);
    TakesEach(names, Taken(Cut(Reconciled(names, state.history)), state.pending, []), events);
  }

  lemma {:induction false} RevalidatedDistinct<W, H>(history: seq<Item<W, H>>, view: View<H>)
    requires view.View? && DistinctHeights(history)
    ensures DistinctHeights(Revalidated(history, view))
    ensures forall j :: 0 <= j < |Revalidated(history, view)| ==>
              exists i :: 0 <= i < |history| && history[i].height == Revalidated(history, view)[j].height
  {
    if history != [] {
      RevalidatedDistinct(history[..|history| - 1], view);
    }
  }

  lemma ScanOfDistinct<W(!new), H(!new)>(names: Names<W>, now: int, view: View<H>, state: State<W, H>)
    requires view.View? && DistinctHeights(state.history)
    ensures DistinctHeights(ScanOf(names, now, view, state).work.history)
  {
    RevalidatedDistinct(state.history, view);
    ScanDistinct(names.anonymous, now, view, StartOf(state.cursor, view.tip),
                 Work(Revalidated(state.history, view), OldestFirst(state.pending), [], []));
  }

  /** Whatever was stored before, no two entries of the history stored after a poll have the same
      height. */
  lemma HeightsStayDistinct<W(!new), H(!new)>(names: Names<W>, state: State<W, H>, poll: Poll<W, H>)
    ensures DistinctHeights(PollOf(names, state, poll).next.history)
  {
    SnapshotDistinct(names, state, poll.events);
    var taken := Snapped(names, state, poll);
    if poll.view.View? {
      ScanOfDistinct(names, poll.now, poll.view, taken);
      StoredDistinct(taken, poll.view.tip, ScanOf(names, poll.now, poll.view, taken));
    }
  }

  // ----- each height once

  /** The chain is not shorter than what was scanned. */
  predicate TipHolds<W, H>(state: State<W, H>, poll: Poll<W, H>) {
    poll.view.View? && state.cursor.Some? ==> poll.view.tip >= state.cursor.value
  }

  /** Where a poll would start from a fresh state. */
  function FreshStart<W, H>(poll: Poll<W, H>): Option<int> {
    if poll.view.Unreachable? then None else Some(StartOf(None, poll.view.tip))
  }

  function Cursors<W, H>(): State<W, H> -> Option<int> {
    (s: State<W, H>) => s.cursor
  }

  function FreshStarts<W, H>(): Poll<W, H> -> Option<int> {
    (p: Poll<W, H>) => FreshStart(p)
  }

  function TipsHold<W, H>(): (State<W, H>, Poll<W, H>) -> bool {
    (s: State<W, H>, p: Poll<W, H>) => TipHolds(s, p)
  }

  lemma ScanExamines<W(!new), H(!new)>(names: Names<W>, now: int, view: View<H>, state: State<W, H>)
    requires view.View? && (state.cursor.Some? ==> view.tip >= state.cursor.value)
    ensures var r, start := ScanOf(names, now, view, state), StartOf(state.cursor, view.tip);
            var cursor := Stored(state, view.tip, r).cursor;
            cursor.Some? && start <= cursor.value + 1 && r.work.examined == Range(start, cursor.value + 1)
  {
    ExaminesInOrder(names.anonymous, now, view, StartOf(state.cursor, view.tip),
                    Work(Revalidated(state.history, view), OldestFirst(state.pending), [], []));
  }

  lemma FinishExamines<W(!new), H(!new)>(
      state: State<W, H>, matched: seq<Item<W, H>>, tip: nat, scanned: Scanned<W, H>, from: int)
    requires var cursor := Stored(state, tip, scanned).cursor;
             cursor.Some? && from <= cursor.value + 1 && scanned.work.examined == Range(from, cursor.value + 1)
    ensures Examines(Finish(state, matched, tip, scanned), Some(from), Finish(state, matched, tip, scanned).next.cursor)
  {
  }

  lemma PollExamines<W(!new), H(!new)>(names: Names<W>, state: State<W, H>, poll: Poll<W, H>)
    requires TipHolds(state, poll)
    ensures Examines(PollOf(names, state, poll), NextHeight(Cursors(), FreshStarts(), state, [poll]),
                     PollOf(names, state, poll).next.cursor)
  {
    OneHeight(Cursors<W, H>(), FreshStarts(), state, poll);
    var taken := Snapped(names, state, poll);
    if poll.view.View? {
      ScanExamines(names, poll.now, poll.view, taken);
      FinishExamines(taken, TakenOf(names, state, poll.events).matched, poll.view.tip,
                     ScanOf(names, poll.now, poll.view, taken), StartOf(state.cursor, poll.view.tip));
    } else if state.cursor.Some? {
      assert Range(state.cursor.value + 1, state.cursor.value + 1) == [];
    }
  }

  /** While the tip never falls below the cursor, the heights examined are exactly those from the first
      scan's start up to the new cursor, each once and in order, however many scans an RPC failure
      stopped. */
  lemma EachHeightOnce<W(!new), H(!new)>(names: Names<W>, start: State<W, H>, polls: seq<Poll<W, H>>)
    requires HoldsThroughout(Polling(names), TipsHold(), start, polls)
    ensures Examines(Run(Polling(names), start, polls), NextHeight(Cursors(), FreshStarts(), start, polls),
                     Run(Polling(names), start, polls).next.cursor)
  {
    var step, cursor, first, holds := Polling<W, H>(names), Cursors<W, H>(), FreshStarts<W, H>(), TipsHold<W, H>();
    forall s, p | holds(s, p)
      ensures Examines(step(s, p), NextHeight(cursor, first, s, [p]), cursor(step(s, p).next))
    {
      PollExamines(names, s, p);
    }
    RunExamines(step, cursor, first, holds, start, polls);
  }

  // ----- each event once

  lemma FinishConserves<W(!new), H(!new)>(
      state: State<W, H>, matched: seq<Item<W, H>>, tip: nat, scanned: Scanned<W, H>, waited: seq<Item<W, H>>,
      given: seq<Item<W, H>>)
    requires multiset(scanned.work.attached) + multiset(scanned.work.pending) == multiset(state.pending)
    requires multiset(matched) + multiset(state.pending) == multiset(waited) + multiset(given)
    ensures Conserved(Finish(state, matched, tip, scanned), waited, given,
                      Finish(state, matched, tip, scanned).next.pending,
                      scanned.Stopped? && scanned.work.attached != [])
  {
    var attached := multiset(scanned.work.attached);
    var o := Finish(state, matched, tip, scanned);
    if scanned.Stopped? {
      assert Settled(o, o.next.pending) == attached + (multiset(matched) + multiset(state.pending));
      Surplus(scanned.work.attached, multiset(waited) + multiset(given));
    } else {
      assert Settled(o, o.next.pending) == multiset(matched) + (attached + multiset(scanned.work.pending));
    }
  }

  lemma Surplus<E>(extra: seq<E>, given: multiset<E>)
    ensures Balanced(multiset(extra) + given, given, extra != [])
  {
    if extra != [] {
      assert extra[0] in multiset(extra);
      assert (multiset(extra) + given)[extra[0]] > given[extra[0]];
    }
  }

  lemma UsedInOrder<W, H>(work: Work<W, H>, n: nat, after: Work<W, H>)
    requires Uses(work, n, after) && work.attached == []
    ensures after.attached + after.pending == work.pending
  {
    assert work.pending[..Least(n, |work.pending|)] + work.pending[Least(n, |work.pending|)..] == work.pending;
  }

  lemma ScanInOrder<W(!new), H(!new)>(names: Names<W>, now: int, view: View<H>, state: State<W, H>)
    requires view.View?
    ensures var work := ScanOf(names, now, view, state).work; work.attached + work.pending == OldestFirst(state.pending)
  {
    var start, before := StartOf(state.cursor, view.tip),
        Work(Revalidated(state.history, view), OldestFirst(state.pending), [], []);
    var r := ScanOf(names, now, view, state);
    ScanAttributes(names.anonymous, now, view, start, before);
    UsedInOrder(before, |NewBlocks(view, before.history, start, EndOf(view, start, r))|, r.work);
  }

  /** A scan attaches the oldest waiting events: what it attached and then what still waits is what
      waited, by the time found, and in the order it waited where the times are the same. */
  lemma ScanTakesOldest<W(!new), H(!new)>(names: Names<W>, now: int, view: View<H>, state: State<W, H>)
    requires view.View?
    ensures var work := ScanOf(names, now, view, state).work;
            var all := work.attached + work.pending;
            && multiset(work.attached) + multiset(work.pending) == multiset(state.pending)
            && (forall i, j :: 0 <= i < j < |all| ==> all[i].foundAt <= all[j].foundAt)
            && (forall time :: FoundAt(time, all) == FoundAt(time, state.pending))
  {
    var work := ScanOf(names, now, view, state).work;
    ScanInOrder(names, now, view, state);
    SplitMultiset(work.attached, work.pending, OldestFirst(state.pending));
    OldestFirstSorted(state.pending);
  }

  /** A scan puts in front of the history an entry for each new block it examined, and gives them the
      waiting events in turn. */
  lemma ScanGivesEvents<W(!new), H(!new)>(names: Names<W>, now: int, view: View<H>, state: State<W, H>)
    requires view.View?
    ensures var r, start := ScanOf(names, now, view, state), StartOf(state.cursor, view.tip);
            Attributes(names.anonymous, now, view, start,
                       Work(Revalidated(state.history, view), OldestFirst(state.pending), [], []),
                       EndOf(view, start, r), r.work)
  {
    ScanAttributes(names.anonymous, now, view, StartOf(state.cursor, view.tip),
                   Work(Revalidated(state.history, view), OldestFirst(state.pending), [], []));
  }

  lemma SplitMultiset<T>(a: seq<T>, b: seq<T>, all: seq<T>)
    requires a + b == all
    ensures multiset(a) + multiset(b) == multiset(all)
  {
  }

  lemma SnapshotConserves<W, H>(names: Names<W>, state: State<W, H>, events: seq<Item<W, H>>)
    ensures var t := TakenOf(names, state, events);
            multiset(t.matched) + multiset(t.pending) == multiset(state.pending) + multiset(events)
  {
    TakesEach(names, Taken(Cut(Reconciled(names, state.history)), state.pending, []), events);
  }

  lemma NothingTorn<S, E>(o: Outcome<S, E>, waited: seq<E>, given: seq<E>, waiting: seq<E>)
    requires o.attached == [] && multiset(o.matched) + multiset(waiting) == multiset(waited) + multiset(given)
    ensures Conserved(o, waited, given, waiting, false)
  {
    assert Settled(o, waiting) == multiset(o.matched) + multiset(waiting);
  }

  /** A scan stops after it has attached an event exactly when the poll tears. */
  lemma TearsExactly<W(!new), H(!new)>(names: Names<W>, state: State<W, H>, poll: Poll<W, H>)
    requires poll.view.View?
    ensures var r := ScanOf(names, poll.now, poll.view, Snapped(names, state, poll));
            Tears(names, state, poll) <==> r.Stopped? && r.work.attached != []
  {
    var taken, view := Snapped(names, state, poll), poll.view;
    StopsPastAttached(names.anonymous, poll.now, view, StartOf(state.cursor, view.tip),
                      Revalidated(taken.history, view),
                      OldestFirst(taken.pending));
    assert |multiset(OldestFirst(taken.pending))| == |multiset(taken.pending)|;
  }

  lemma PollConserves<W(!new), H(!new)>(names: Names<W>, state: State<W, H>, poll: Poll<W, H>)
    ensures Conserved(PollOf(names, state, poll), state.pending, poll.events, PollOf(names, state, poll).next.pending,
                      Tears(names, state, poll))
  {
    SnapshotConserves(names, state, poll.events);
    var taken, matched := Snapped(names, state, poll), TakenOf(names, state, poll.events).matched;
    if poll.view.Unreachable? {
      NothingTorn(PollOf(names, state, poll), state.pending, poll.events, taken.pending);
    } else {
      ScanTakesOldest(names, poll.now, poll.view, taken);
      TearsExactly(names, state, poll);
      FinishConserves(taken, matched, poll.view.tip, ScanOf(names, poll.now, poll.view, taken), state.pending,
                      poll.events);
    }
  }

  /** Over any run, every event ends attached to one block, matched with one block or waiting, and only
      once, exactly when no poll tears: a poll with an event waiting, in which the node fails past a
      new block. The block gets the event, and the event waits still, to be attached again. */
  lemma EventsConserved<W(!new), H(!new)>(names: Names<W>, start: State<W, H>, polls: seq<Poll<W, H>>)
    ensures Conserved(Run(Polling(names), start, polls), start.pending, All((p: Poll<W, H>) => p.events, polls),
                      Run(Polling(names), start, polls).next.pending,
                      AnyTears(Polling(names), (s, p) => Tears(names, s, p), start, polls))
  {
    var step, waiting, events := Polling<W, H>(names), (s: State<W, H>) => s.pending, (p: Poll<W, H>) => p.events;
    var tears := (s: State<W, H>, p: Poll<W, H>) => Tears(names, s, p);
    forall s, p
      ensures Conserved(step(s, p), waiting(s), events(p), waiting(step(s, p).next), tears(s, p))
    {
      PollConserves(names, s, p);
    }
    RunConserves(step, waiting, events, tears, start, polls);
  }

  // ----- a torn scan gives one event to two blocks

  lemma WaitsAlone<W, H>(names: Names<W>, event: Item<W, H>)
    ensures TakenOf(names, State([], [], None), [event]) == Taken([], [event], [])
  {
    var t := Taken<W, H>.Taken([], [], []);
    assert [event][..0] == [];
    assert TakeAll(names, t, []) == t;
    assert Take(names, t, event) == Taken([], [event], []);
  }

  lemma StaysAlone<W, H>(names: Names<W>, found: Item<W, H>, event: Item<W, H>)
    ensures TakenOf(names, State([found], [event], Some(0)), []) == Taken([found], [event], [])
  {
    assert [found][..0] == [];
    assert Reconciled<W, H>(names, []) == [];
    assert Reconciled(names, [found]) == [found];
  }

  lemma TearsAtOne<W(!new), H(!new)>(names: Names<W>, event: Item<W, H>, hash: H, now: int, view: View<H>)
    requires view.View? && view.tip == 1 && view.address && view.at(0) == Block(hash, true) && view.at(1) == Fails
    ensures var found := event.(height := Some(0), hash := Some(hash));
            PollOf(names, State([], [], None), Poll([event], now, view))
              == Outcome(State([found], [event], Some(0)), [event], [], [0])
    ensures Tears(names, State([], [], None), Poll([event], now, view))
  {
    WaitsAlone(names, event);
    var taken := State([], [event], None);
    var work := Work([], [event], [], []);
    assert OldestFirst([event]) == [event];
    var done := Examine(names.anonymous, now, work, 0, hash, true);
    assert done == Work([event.(height := Some(0), hash := Some(hash))], [], [event], [0]);
    assert ScanFrom(names.anonymous, now, view, 1, done) == Stopped(done, 1);
    assert ScanFrom(names.anonymous, now, view, 0, work) == Stopped(done, 1);
    assert ScanOf(names, now, view, taken) == Stopped(done, 1);
    TearsExactly(names, State([], [], None), Poll([event], now, view));
  }

  lemma AttachesAgain<W(!new), H(!new)>(names: Names<W>, found: Item<W, H>, event: Item<W, H>, hash: H, now: int,
      view: View<H>)
    requires found.height == Some(0) && found.hash.Some?
    requires view.View? && view.tip == 1 && view.address && view.at(1) == Block(hash, true)
    ensures var o := PollOf(names, State([found], [event], Some(0)), Poll([], now, view));
            o.attached == [event] && o.matched == []
  {
    StaysAlone(names, found, event);
    ScansOne(names, found, event, hash, now, view);
  }

  lemma ScansOne<W(!new), H(!new)>(names: Names<W>, found: Item<W, H>, event: Item<W, H>, hash: H, now: int,
      view: View<H>)
    requires found.height == Some(0) && found.hash.Some?
    requires view.View? && view.tip == 1 && view.address && view.at(1) == Block(hash, true)
    ensures var r := ScanOf(names, now, view, State([found], [event], Some(0)));
            r.Reached? && r.work.attached == [event]
  {
    var work := Work([found], [event], [], []);
    assert OldestFirst([event]) == [event];
    assert Revalidated([found], view) == [found] by {
      assert [found][..0] == [];
    }
    assert !HasHeight([found], 1);
    var done := Examine(names.anonymous, now, work, 1, hash, true);
    assert ScanFrom(names.anonymous, now, view, 2, done) == Reached(done);
    assert ScanFrom(names.anonymous, now, view, 1, work) == Reached(done);
  }

  lemma RunOfTwo<S, P, E>(step: Step<S, P, E>, start: S, first: P, second: P)
    ensures var o, p := step(start, first), step(step(start, first).next, second);
            var r := Run(step, start, [first, second]);
            r.attached == o.attached + p.attached && r.matched == o.matched + p.matched
  {
    assert [first, second][..1] == [first] && [first][..0] == [];
    assert Run(step, start, []).next == start;
    var one := Run(step, start, [first]);
    assert one.next == step(start, first).next && one.attached == step(start, first).attached
           && one.matched == step(start, first).matched;
  }

  /** One poll finds a block at height 0 and loses the node at height 1; the next finds a block there.
      The one waiting event is attached to both. */
  lemma EventAttachedTwice<W(!new), H(!new)>(names: Names<W>, event: Item<W, H>, hash: H, other: H)
    ensures var one, two := View(1, true, height => if height == 0 then Block(hash, true) else Fails),
            View(1, true, height => Block(other, true));
            var o := Run(Polling(names), State([], [], None), [Poll([event], 0, one), Poll([], 1, two)]);
            o.attached == [event, event] && o.matched == [] && Tears(names, State([], [], None), Poll([event], 0, one))
  {
    var one, two := View(1, true, height => if height == 0 then Block(hash, true) else Fails),
        View(1, true, height => Block(other, true));
    var found := event.(height := Some(0), hash := Some(hash));
    TearsAtOne(names, event, hash, 0, one);
    AttachesAgain(names, found, event, other, 1, two);
    RunOfTwo(Polling(names), State([], [], None), Poll([event], 0, one), Poll([], 1, two));
  }
}
