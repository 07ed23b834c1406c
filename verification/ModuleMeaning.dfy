/** scripts/rust_test_reachability.py: which functions and modules a file's text declares, told by the
    places of its characters. */
module ModuleMeaning {
  import opened Results
  import opened Delimiters
  import opened ModuleText
  import opened ModuleWalk

  /** A file's masked code, its path, and each opener's closer. */
  datatype Source<!P, !N> = Source(reader: Reader<P, N>, path: P, code: string, pairs: map<nat, nat>) {
    ghost predicate Good(from: nat, end: nat) {
      Reads(reader) && Nested(pairs) && Closed(code, pairs, from, end)
    }
  }

  // ----- where an item ends

  /** Place `i` is inside round or square brackets that open at `k`. */
  predicate Encloses<P, N>(s: Source<P, N>, k: nat, i: nat) {
    k < |s.code| && (s.code[k] == '(' || s.code[k] == '[') && k in s.pairs && k < i < s.pairs[k]
  }

  ghost predicate Outside<P, N>(s: Source<P, N>, item: nat, i: nat) {
    forall k: nat :: item <= k < i ==> !Encloses(s, k, i)
  }

  predicate Stops<P, N>(s: Source<P, N>, i: nat) {
    i < |s.code| && (s.code[i] == '{' || s.code[i] == ';')
  }

  /** The item ends at the first brace or semicolon outside the brackets it opens, or else with its scope. */
  ghost predicate EndsAt<P, N>(s: Source<P, N>, item: nat, end: nat, stop: nat) {
    && item <= stop <= end
    && (stop < end ==> Stops(s, stop) && Outside(s, item, stop))
    && forall i: nat :: item <= i < stop ==> !Stops(s, i) || !Outside(s, item, i)
  }

  /** No place after a bracket's closer is inside what only brackets before it can hold. */
  lemma OutsideAfter<P, N>(s: Source<P, N>, item: nat, end: nat, i: nat)
    requires s.Good(item, end) && item < end && (s.code[item] == '(' || s.code[item] == '[')
    requires item in s.pairs && s.pairs[item] < i <= end
    ensures Outside(s, item, i) <==> Outside(s, s.pairs[item] + 1, i)
  {
    var close := s.pairs[item];
    assert Within(s.code, s.pairs, item, end);
    if Outside(s, close + 1, i) {
      forall k: nat | item <= k < i
        ensures !Encloses(s, k, i)
      {
        assert !Crosses(s.pairs, item, k);
        assert Closing(s.code, s.pairs, item);
      }
    }
  }

  lemma EndsAfterBracket<P, N>(s: Source<P, N>, item: nat, end: nat, stop: nat)
    requires s.Good(item, end) && item < end && (s.code[item] == '(' || s.code[item] == '[')
    requires item in s.pairs && item < s.pairs[item] < end
    ensures EndsAt(s, item, end, stop) <==> EndsAt(s, s.pairs[item] + 1, end, stop)
  {
    var close := s.pairs[item];
    assert Within(s.code, s.pairs, item, end) && Closing(s.code, s.pairs, item);
    forall i: nat | item <= i <= close
      ensures !Stops(s, i) || !Outside(s, item, i)
    {
      if item < i < close {
        assert Encloses(s, item, i);
      }
    }
    forall i: nat | close < i <= end
      ensures Outside(s, item, i) <==> Outside(s, close + 1, i)
    {
      OutsideAfter(s, item, end, i);
    }
  }

  lemma EndsAfterPlain<P, N>(s: Source<P, N>, item: nat, end: nat, stop: nat)
    requires item < end <= |s.code| && s.code[item] !in "([{;"
    ensures EndsAt(s, item, end, stop) <==> EndsAt(s, item + 1, end, stop)
  {
    forall i: nat | item < i
      ensures Outside(s, item, i) <==> Outside(s, item + 1, i)
    {
      assert !Encloses(s, item, i);
    }
    assert !Stops(s, item);
  }

  lemma {:induction false} StopExactly<P, N>(s: Source<P, N>, item: nat, end: nat, stop: nat)
    requires s.Good(item, end)
    ensures EndsAt(s, item, end, stop) <==> stop == StopOf(s.code, s.pairs, item, end)
    decreases end - item
  {
    if item == end {
    } else if s.code[item] == '{' || s.code[item] == ';' {
      assert Stops(s, item) && Outside(s, item, item);
    } else if s.code[item] == '(' || s.code[item] == '[' {
      InsideClosed(s.code, s.pairs, item, item, end);
      EndsAfterBracket(s, item, end, stop);
      StopExactly(s, s.pairs[item] + 1, end, stop);
    } else {
      EndsAfterPlain(s, item, end, stop);
      Shorten(s.code, s.pairs, item, item + 1, end);
      StopExactly(s, item + 1, end, stop);
    }
  }

  // ----- the inner attributes of a body

  ghost predicate Noted<P, N>(s: Source<P, N>, i: nat, end: nat) {
    i < end <= |s.code| && !s.reader.space(s.code[i]) && s.reader.attribute(s.code, i).Some?
  }

  /** The attribute at `i` has a closer, and `text` is between its brackets. */
  ghost predicate Says<P, N>(s: Source<P, N>, i: nat, end: nat, text: string) {
    Noted(s, i, end) && SaysAt(s, s.reader.attribute(s.code, i).value.open, text)
  }

  ghost predicate SaysAt<P, N>(s: Source<P, N>, open: nat, text: string) {
    open in s.pairs && open < s.pairs[open] <= |s.code| && text == s.code[open + 1..s.pairs[open]]
  }

  ghost predicate Inner<P, N>(s: Source<P, N>, i: nat, end: nat) {
    Noted(s, i, end) && s.reader.attribute(s.code, i).value.inner
  }

  /** From `i` the head of a body goes on at `next`, past a blank or an inner attribute. */
  ghost predicate Leads<P, N>(s: Source<P, N>, i: nat, next: nat, end: nat) {
    && i < end <= |s.code|
    && if s.reader.space(s.code[i]) then next == i + 1 else Inner(s, i, end) && PastNote(s, i, next)
  }

  ghost predicate PastNote<P, N>(s: Source<P, N>, i: nat, next: nat)
    requires s.reader.attribute(s.code, i).Some?
  {
    var open := s.reader.attribute(s.code, i).value.open;
    open in s.pairs && next == s.pairs[open] + 1
  }

  ghost predicate LeadsTo<P, N>(s: Source<P, N>, from: nat, end: nat, trace: seq<nat>, i: nat) {
    && trace != [] && trace[0] == from && trace[|trace| - 1] == i
    && forall k :: 0 <= k < |trace| - 1 ==> LeadsAt(s, trace, k, end)
  }

  ghost predicate LeadsAt<P, N>(s: Source<P, N>, trace: seq<nat>, k: nat, end: nat)
    requires k < |trace| - 1
  {
    Leads(s, trace[k], trace[k + 1], end)
  }

  /** Every inner attribute at the head of the body allows it. */
  ghost predicate Allows<P, N>(s: Source<P, N>, body: nat, end: nat) {
    forall trace, i, text :: LeadsTo(s, body, end, trace, i) && Inner(s, i, end) && Says(s, i, end, text) ==>
                               s.reader.enabled(text)
  }

  /** A way on from the first place, and the ways from it. */
  lemma LeadsFirst<P, N>(s: Source<P, N>, from: nat, end: nat, trace: seq<nat>, i: nat)
    requires |trace| > 1
    ensures LeadsTo(s, from, end, trace, i)
            <==> trace[0] == from && Leads(s, from, trace[1], end) && LeadsTo(s, trace[1], end, trace[1..], i)
  {
    var rest := trace[1..];
    if LeadsTo(s, from, end, trace, i) {
      assert LeadsAt(s, trace, 0, end);
      forall k | 0 <= k < |rest| - 1
        ensures LeadsAt(s, rest, k, end)
      {
        assert LeadsAt(s, trace, k + 1, end);
      }
    }
    if trace[0] == from && Leads(s, from, trace[1], end) && LeadsTo(s, trace[1], end, rest, i) {
      forall k | 0 <= k < |trace| - 1
        ensures LeadsAt(s, trace, k, end)
      {
        if k > 0 {
          assert LeadsAt(s, rest, k - 1, end);
        }
      }
    }
  }

  /** The head allows the body exactly when its first inner attribute does and the rest of the head. */
  lemma AllowsOn<P, N>(s: Source<P, N>, body: nat, end: nat, next: nat)
    requires Leads(s, body, next, end)
    requires forall other :: Leads(s, body, other, end) ==> other == next
    ensures Allows(s, body, end)
            <==> Allows(s, next, end)
                 && forall text :: Inner(s, body, end) && Says(s, body, end, text) ==> s.reader.enabled(text)
  {
    if Allows(s, body, end) {
      forall trace, i, text | LeadsTo(s, next, end, trace, i) && Inner(s, i, end) && Says(s, i, end, text)
        ensures s.reader.enabled(text)
      {
        var longer := [body] + trace;
        assert longer[1..] == trace;
        LeadsFirst(s, body, end, longer, i);
      }
      assert LeadsTo(s, body, end, [body], body);
    }
    if Allows(s, next, end)
       && forall text :: Inner(s, body, end) && Says(s, body, end, text) ==> s.reader.enabled(text)
    {
      forall trace, i, text | LeadsTo(s, body, end, trace, i) && Inner(s, i, end) && Says(s, i, end, text)
        ensures s.reader.enabled(text)
      {
        if |trace| > 1 {
          LeadsFirst(s, body, end, trace, i);
        }
      }
    }
  }

  lemma AllowsNothing<P, N>(s: Source<P, N>, body: nat, end: nat)
    requires !Inner(s, body, end) && forall other :: !Leads(s, body, other, end)
    ensures Allows(s, body, end)
  {
    forall trace, i | LeadsTo(s, body, end, trace, i)
      ensures !Inner(s, i, end)
    {
      if |trace| > 1 {
        LeadsFirst(s, body, end, trace, i);
      }
    }
  }

  lemma {:induction false} BodyExactly<P, N>(s: Source<P, N>, body: nat, end: nat)
    requires s.Good(body, end)
    ensures BodyEnabled(s.reader, s.code, s.pairs, body, end) <==> Allows(s, body, end)
    decreases end - body
  {
    if body == end {
      AllowsNothing(s, body, end);
    } else if s.reader.space(s.code[body]) {
      Shorten(s.code, s.pairs, body, body + 1, end);
      BodyExactly(s, body + 1, end);
      AllowsOn(s, body, end, body + 1);
    } else {
      MarkInside(s.reader, s.code, s.pairs, body, end);
      if Inner(s, body, end) {
        var open := s.reader.attribute(s.code, body).value.open;
        BodyExactly(s, s.pairs[open] + 1, end);
        AllowsOn(s, body, end, s.pairs[open] + 1);
        assert Says(s, body, end, s.code[open + 1..s.pairs[open]]);
      } else {
        AllowsNothing(s, body, end);
      }
    }
  }

  // ----- the parts of an item

  ghost predicate Readable<P, N>(s: Source<P, N>, start: nat, item: nat, attributes: seq<string>) {
    forall i :: 0 <= i < |attributes| ==> s.reader.path(s.path, start, item, attributes[i]) != BadPath
  }

  /** The path given is the last one any attribute gives, and none is unreadable. */
  ghost predicate Gives<P, N>(s: Source<P, N>, start: nat, item: nat, attributes: seq<string>, custom: Option<N>) {
    && Readable(s, start, item, attributes)
    && match custom
       case None => forall i :: 0 <= i < |attributes| ==> s.reader.path(s.path, start, item, attributes[i]) == NoPath
       case Some(given) => exists i :: LastGiven(s, start, item, attributes, i, given)
  }

  ghost predicate LastGiven<P, N>(s: Source<P, N>, start: nat, item: nat, attributes: seq<string>, i: nat, given: N) {
    && i < |attributes| && s.reader.path(s.path, start, item, attributes[i]) == Custom(given)
    && forall k :: i < k < |attributes| ==> s.reader.path(s.path, start, item, attributes[k]) == NoPath
  }

  lemma {:induction false} PathReadable<P, N>(s: Source<P, N>, start: nat, item: nat, attributes: seq<string>)
    ensures Readable(s, start, item, attributes) <==> PathOf(s.reader, s.path, start, item, attributes) != BadPath
  {
    if attributes != [] {
      var n := |attributes| - 1;
      PathReadable(s, start, item, attributes[..n]);
      assert forall i :: 0 <= i < n ==> attributes[..n][i] == attributes[i];
    }
  }

  lemma {:induction false} PathExactly<P, N>(s: Source<P, N>, start: nat, item: nat, attributes: seq<string>,
      custom: Option<N>)
    ensures Gives(s, start, item, attributes, custom)
            <==> PathOf(s.reader, s.path, start, item, attributes)
                 == match custom { case None => NoPath case Some(given) => Custom(given) }
  {
    if attributes != [] {
      var n := |attributes| - 1;
      var before := attributes[..n];
      PathExactly(s, start, item, before, custom);
      var last := s.reader.path(s.path, start, item, attributes[n]);
      assert forall i :: 0 <= i < n ==> before[i] == attributes[i];
      if custom.Some? {
        if last == Custom(custom.value) {
          assert LastGiven(s, start, item, attributes, n, custom.value);
          PathReadable(s, start, item, attributes);
        } else if last == NoPath {
          forall i: nat
            ensures LastGiven(s, start, item, attributes, i, custom.value)
                    <==> LastGiven(s, start, item, before, i, custom.value)
          {
          }
        }
      }
    }
  }

  // ----- the places of a scope's items

  /** From `i` the reading of a scope goes on at `next`: past a blank, past an attribute (an inner one only
      when it is enabled), or past an item. */
  ghost predicate Passes<P, N>(s: Source<P, N>, i: nat, next: nat, end: nat) {
    && i < end <= |s.code|
    && if s.reader.space(s.code[i]) || s.code[i] == ';' then next == i + 1
       else if s.reader.attribute(s.code, i).Some? then
           PastNote(s, i, next) && (Inner(s, i, end) ==> Permits(s, i, end))
       else exists stop :: PastItem(s, i, stop, next, end)
  }

  ghost predicate Permits<P, N>(s: Source<P, N>, i: nat, end: nat) {
    forall text :: Says(s, i, end, text) ==> s.reader.enabled(text)
  }

  ghost predicate PastItem<P, N>(s: Source<P, N>, item: nat, stop: nat, next: nat, end: nat) {
    && EndsAt(s, item, end, stop) && stop < end
    && if stop < |s.code| && s.code[stop] == '{' then stop in s.pairs && next == s.pairs[stop] + 1 else next == stop + 1
  }

  /** A place in a scope, with the outer attributes since the last item. */
  datatype Standing = Standing(at: nat, attributes: seq<string>)

  ghost predicate Goes<P, N>(s: Source<P, N>, a: Standing, b: Standing, end: nat) {
    && Passes(s, a.at, b.at, end)
    && if s.reader.space(s.code[a.at]) || s.code[a.at] == ';' || Inner(s, a.at, end) then b.attributes == a.attributes
       else if s.reader.attribute(s.code, a.at).None? then b.attributes == []
       else exists text :: Says(s, a.at, end, text) && b.attributes == a.attributes + [text]
  }

  ghost predicate GoesTo<P, N>(s: Source<P, N>, from: Standing, end: nat, trace: seq<Standing>, last: Standing) {
    && trace != [] && trace[0] == from && trace[|trace| - 1] == last
    && forall k :: 0 <= k < |trace| - 1 ==> GoesAt(s, trace, k, end)
  }

  ghost predicate GoesAt<P, N>(s: Source<P, N>, trace: seq<Standing>, k: nat, end: nat)
    requires k < |trace| - 1
  {
    Goes(s, trace[k], trace[k + 1], end)
  }

  /** The reading of a scope comes from one place to another. */
  ghost predicate Comes<P, N>(s: Source<P, N>, from: Standing, end: nat, last: Standing) {
    exists trace :: GoesTo(s, from, end, trace, last)
  }

  lemma GoesFirst<P, N>(s: Source<P, N>, from: Standing, end: nat, trace: seq<Standing>, last: Standing)
    requires |trace| > 1
    ensures GoesTo(s, from, end, trace, last)
            <==> trace[0] == from && Goes(s, from, trace[1], end) && GoesTo(s, trace[1], end, trace[1..], last)
  {
    var rest := trace[1..];
    if GoesTo(s, from, end, trace, last) {
      assert GoesAt(s, trace, 0, end);
      forall k | 0 <= k < |rest| - 1
        ensures GoesAt(s, rest, k, end)
      {
        assert GoesAt(s, trace, k + 1, end);
      }
    }
    if trace[0] == from && Goes(s, from, trace[1], end) && GoesTo(s, trace[1], end, rest, last) {
      forall k | 0 <= k < |trace| - 1
        ensures GoesAt(s, trace, k, end)
      {
        if k > 0 {
          assert GoesAt(s, rest, k - 1, end);
        }
      }
    }
  }

  /** Where there is one way on, the reading comes to what it comes to from there, or stays. */
  lemma ComesOn<P, N>(s: Source<P, N>, from: Standing, end: nat, next: Standing, last: Standing)
    requires Goes(s, from, next, end) && forall other :: Goes(s, from, other, end) ==> other == next
    ensures Comes(s, from, end, last) <==> from == last || Comes(s, next, end, last)
  {
    if Comes(s, from, end, last) {
      var trace :| GoesTo(s, from, end, trace, last);
      if |trace| > 1 {
        GoesFirst(s, from, end, trace, last);
      }
    }
    if from == last {
      assert GoesTo(s, from, end, [from], last);
    } else if Comes(s, next, end, last) {
      var trace :| GoesTo(s, next, end, trace, last);
      var longer := [from] + trace;
      assert longer[1..] == trace;
      GoesFirst(s, from, end, longer, last);
    }
  }

  lemma ComesNowhere<P, N>(s: Source<P, N>, from: Standing, end: nat, last: Standing)
    requires forall other :: !Goes(s, from, other, end)
    ensures Comes(s, from, end, last) <==> from == last
  {
    if Comes(s, from, end, last) {
      var trace :| GoesTo(s, from, end, trace, last);
      if |trace| > 1 {
        GoesFirst(s, from, end, trace, last);
      }
    }
    if from == last {
      assert GoesTo(s, from, end, [from], last);
    }
  }

  // ----- the items of a scope

  /** An item begins where there is no blank and no attribute. */
  predicate Begins<P, N>(s: Source<P, N>, i: nat, end: nat) {
    i < end <= |s.code| && !s.reader.space(s.code[i]) && s.code[i] != ';' && s.reader.attribute(s.code, i).None?
  }

  /** What a scope declares: a function with its line, or a module that is given a path or not, whose
      items are there or in another file. */
  datatype Entry<N> = AFunction(line: nat, name: N) | AModule(name: N, custom: Option<N>, body: Option<Items<N>>)

  ghost predicate Lists<N(!new)>(items: Items<N>, e: Entry<N>) {
    match items
    case End => false
    case Function(line, name, rest) => e == AFunction(line, name) || Lists(rest, e)
    case Inline(name, custom, body, rest) => e == AModule(name, custom, Some(body)) || Lists(rest, e)
    case External(name, custom, rest) => e == AModule(name, custom, None) || Lists(rest, e)
  }

  /** An item goes from `i` to `stop`, and its attributes allow it. */
  ghost predicate IsItem<P, N>(s: Source<P, N>, end: nat, i: nat, stop: nat, attributes: seq<string>) {
    && Begins(s, i, end) && EndsAt(s, i, end, stop) && stop < end
    && forall k :: 0 <= k < |attributes| ==> s.reader.enabled(attributes[k])
  }

  ghost predicate IsFunction<P, N>(s: Source<P, N>, end: nat, i: nat, stop: nat, attributes: seq<string>, line: nat,
      name: N)
  {
    && IsItem(s, end, i, stop, attributes)
    && s.reader.header(s.code[i..stop]) == Definition(name) && Allows(s, stop + 1, end)
    && line == |NewlinesBefore(s, i)| + 1
  }

  ghost predicate IsModule<P, N>(s: Source<P, N>, start: nat, end: nat, i: nat, stop: nat, attributes: seq<string>,
      name: N, custom: Option<N>)
  {
    && IsItem(s, end, i, stop, attributes)
    && s.reader.header(s.code[i..stop]) == Module(name) && Gives(s, start, i, attributes, custom)
  }

  /** The item from `i` to `stop` is what its attributes, its header and its body say. */
  ghost predicate IsEntry<P(!new), N(!new)>(s: Source<P, N>, start: nat, end: nat, i: nat, stop: nat,
      attributes: seq<string>, e: Entry<N>)
  {
    match e
    case AFunction(line, name) => IsFunction(s, end, i, stop, attributes, line, name)
    case AModule(name, custom, body) =>
      && IsModule(s, start, end, i, stop, attributes, name, custom)
      && (body.Some? <==> s.code[stop] == '{')
      && (body.Some? ==> IsBody(s, stop, end, body.value))
  }

  ghost function NewlinesBefore<P, N>(s: Source<P, N>, i: nat): set<nat>
    requires i <= |s.code|
  {
    set k: nat | k < i && s.code[k] == '\n'
  }

  ghost predicate IsBody<P, N>(s: Source<P, N>, stop: nat, end: nat, body: Items<N>) {
    stop in s.pairs && s.Good(stop + 1, s.pairs[stop])
    && body == ItemsFrom(s.reader, s.path, s.code, s.pairs, stop + 1, stop + 1, s.pairs[stop], [])
  }

  lemma {:induction false} LinesExactly(code: string, i: nat)
    requires i <= |code|
    ensures Lines(code[..i]) == |set k: nat | k < i && code[k] == '\n'|
  {
    var lines := set k: nat | k < i && code[k] == '\n';
    if i > 0 {
      LinesExactly(code, i - 1);
      assert code[..i][..i - 1] == code[..i - 1];
      var before := set k: nat | k < i - 1 && code[k] == '\n';
      assert lines == before + if code[i - 1] == '\n' then {i - 1} else {};
    }
  }

  lemma FunctionExactly<P(!new), N(!new)>(s: Source<P, N>, start: nat, end: nat, i: nat, stop: nat,
      attributes: seq<string>,
      rest: Items<N>, e: Entry<N>)
    requires s.Good(i, end) && Begins(s, i, end) && EndsAt(s, i, end, stop) && stop < end && s.Good(stop, end)
    requires s.reader.header(s.code[i..stop]).Definition? && AllEnabled(s.reader, attributes)
    ensures var items := ItemAt(s.reader, s.path, s.code, s.pairs, start, i, stop, end, attributes, rest);
            Lists(items, e) <==> IsEntry(s, start, end, i, stop, attributes, e) || Lists(rest, e)
  {
    Shorten(s.code, s.pairs, stop, stop + 1, end);
    BodyExactly(s, stop + 1, end);
    LinesExactly(s.code, i);
  }

  lemma ModuleExactly<P(!new), N(!new)>(s: Source<P, N>, start: nat, end: nat, i: nat, stop: nat,
      attributes: seq<string>,
      rest: Items<N>, e: Entry<N>)
    requires s.Good(i, end) && Begins(s, i, end) && EndsAt(s, i, end, stop) && stop < end && s.Good(stop, end)
    requires s.reader.header(s.code[i..stop]).Module? && AllEnabled(s.reader, attributes)
    ensures var items := ItemAt(s.reader, s.path, s.code, s.pairs, start, i, stop, end, attributes, rest);
            Lists(items, e) <==> IsEntry(s, start, end, i, stop, attributes, e) || Lists(rest, e)
  {
    if s.code[stop] == '{' {
      InsideClosed(s.code, s.pairs, stop, stop, end);
    }
    if e.AModule? {
      PathExactly(s, start, i, attributes, e.custom);
    }
    PathReadable(s, start, i, attributes);
  }

  lemma ItemExactly<P(!new), N(!new)>(s: Source<P, N>, start: nat, end: nat, i: nat, stop: nat, attributes: seq<string>,
      rest: Items<N>, e: Entry<N>)
    requires s.Good(i, end) && Begins(s, i, end) && EndsAt(s, i, end, stop) && stop < end && s.Good(stop, end)
    ensures var items := ItemAt(s.reader, s.path, s.code, s.pairs, start, i, stop, end, attributes, rest);
            Lists(items, e) <==> IsEntry(s, start, end, i, stop, attributes, e) || Lists(rest, e)
  {
    if AllEnabled(s.reader, attributes) {
      match s.reader.header(s.code[i..stop])
      case Definition(_) => FunctionExactly(s, start, end, i, stop, attributes, rest, e);
      case Module(_) => ModuleExactly(s, start, end, i, stop, attributes, rest, e);
      case Other =>
    }
  }

  /** A place that the reading comes to from `from` holds the entry. */
  ghost predicate Holds<P(!new), N(!new)>(s: Source<P, N>, start: nat, from: Standing, end: nat, e: Entry<N>) {
    exists last, stop :: Comes(s, from, end, last) && IsEntry(s, start, end, last.at, stop, last.attributes, e)
  }

  lemma HoldsOn<P(!new), N(!new)>(s: Source<P, N>, start: nat, from: Standing, end: nat, next: Standing, e: Entry<N>)
    requires Goes(s, from, next, end) && forall other :: Goes(s, from, other, end) ==> other == next
    ensures Holds(s, start, from, end, e)
            <==> Holds(s, start, next, end, e) || exists stop ::
              IsEntry(s, start, end, from.at, stop, from.attributes, e)
  {
    forall last
      ensures Comes(s, from, end, last) <==> from == last || Comes(s, next, end, last)
    {
      ComesOn(s, from, end, next, last);
    }
  }

  lemma HoldsNothing<P(!new), N(!new)>(s: Source<P, N>, start: nat, from: Standing, end: nat, e: Entry<N>)
    requires forall other :: !Goes(s, from, other, end)
    requires forall stop :: !IsEntry(s, start, end, from.at, stop, from.attributes, e)
    ensures !Holds(s, start, from, end, e)
  {
    forall last
      ensures Comes(s, from, end, last) <==> from == last
    {
      ComesNowhere(s, from, end, last);
    }
  }

  /** What a scope is read to declare is what it holds. */
  lemma {:induction false} EntriesExactly<P(!new), N(!new)>(s: Source<P, N>, start: nat, cursor: nat, end: nat,
      attributes: seq<string>, e: Entry<N>)
    requires s.Good(cursor, end)
    ensures Lists(ItemsFrom(s.reader, s.path, s.code, s.pairs, start, cursor, end, attributes), e)
            <==> Holds(s, start, Standing(cursor, attributes), end, e)
    decreases end - cursor, 1
  {
    var here := Standing(cursor, attributes);
    if cursor == end {
      HoldsNothing(s, start, here, end, e);
    } else if s.reader.space(s.code[cursor]) || s.code[cursor] == ';' {
      Shorten(s.code, s.pairs, cursor, cursor + 1, end);
      EntriesExactly(s, start, cursor + 1, end, attributes, e);
      HoldsOn(s, start, here, end, Standing(cursor + 1, attributes), e);
    } else if s.reader.attribute(s.code, cursor).Some? {
      EntriesAfterNote(s, start, cursor, end, attributes, e);
    } else {
      EntriesAfterItem(s, start, cursor, end, attributes, e);
    }
  }

  /** The one place after an attribute, with the attributes there. */
  lemma GoesPastNote<P, N>(s: Source<P, N>, from: Standing, end: nat, next: Standing, text: string)
    requires Noted(s, from.at, end) && s.code[from.at] != ';' && Says(s, from.at, end, text)
    requires PastNote(s, from.at, next.at)
    requires next.attributes == if Inner(s, from.at, end) then from.attributes else from.attributes + [text]
    ensures Inner(s, from.at, end) && !s.reader.enabled(text) ==> forall other :: !Goes(s, from, other, end)
    ensures !Inner(s, from.at, end) || s.reader.enabled(text) ==>
              Goes(s, from, next, end) && forall other :: Goes(s, from, other, end) ==> other == next
  {
    forall other | Goes(s, from, other, end)
      ensures other == next
    {
      assert other.at == next.at;
    }
    assert forall said :: Says(s, from.at, end, said) ==> said == text;
  }

  lemma {:induction false} EntriesAfterNote<P(!new), N(!new)>(s: Source<P, N>, start: nat, cursor: nat, end: nat,
      attributes: seq<string>, e: Entry<N>)
    requires s.Good(cursor, end) && Noted(s, cursor, end) && s.code[cursor] != ';'
    ensures Lists(ItemsFrom(s.reader, s.path, s.code, s.pairs, start, cursor, end, attributes), e)
            <==> Holds(s, start, Standing(cursor, attributes), end, e)
    decreases end - cursor, 0
  {
    MarkInside(s.reader, s.code, s.pairs, cursor, end);
    var mark := s.reader.attribute(s.code, cursor).value;
    var text := s.code[mark.open + 1..s.pairs[mark.open]];
    var here := Standing(cursor, attributes);
    var next := Standing(s.pairs[mark.open] + 1, if mark.inner then attributes else attributes + [text]);
    GoesPastNote(s, here, end, next, text);
    if mark.inner && !s.reader.enabled(text) {
      HoldsNothing(s, start, here, end, e);
    } else {
      EntriesExactly(s, start, next.at, end, next.attributes, e);
      HoldsOn(s, start, here, end, next, e);
    }
  }

  lemma {:induction false} EntriesAfterItem<P(!new), N(!new)>(s: Source<P, N>, start: nat, cursor: nat, end: nat,
      attributes: seq<string>, e: Entry<N>)
    requires s.Good(cursor, end) && Begins(s, cursor, end)
    ensures Lists(ItemsFrom(s.reader, s.path, s.code, s.pairs, start, cursor, end, attributes), e)
            <==> Holds(s, start, Standing(cursor, attributes), end, e)
    decreases end - cursor, 0
  {
    var stop := StopOf(s.code, s.pairs, cursor, end);
    var here := Standing(cursor, attributes);
    forall other
      ensures EndsAt(s, cursor, end, other) <==> other == stop
    {
      StopExactly(s, cursor, end, other);
    }
    if stop == end {
      HoldsNothing(s, start, here, end, e);
    } else {
      var next := AfterItem(s.code, s.pairs, stop, end);
      if s.code[stop] == '{' {
        InsideClosed(s.code, s.pairs, stop, stop, end);
      }
      assert PastItem(s, cursor, stop, next, end);
      EntriesExactly(s, start, next, end, [], e);
      HoldsOn(s, start, here, end, Standing(next, []), e);
      var rest := ItemsFrom(s.reader, s.path, s.code, s.pairs, start, next, end, []);
      ItemExactly(s, start, end, cursor, stop, attributes, rest, e);
    }
  }

  // ----- what a file declares

  /** A stretch of a file between the braces of a module, or all of it, and where its modules are looked for. */
  datatype Scope<P, N> = Scope(start: nat, end: nat, at: Place<P, N>)

  /** The reading of the scope comes to a place. */
  ghost predicate ComesIn<P(!new), N(!new)>(s: Source<P, N>, a: Scope<P, N>, last: Standing) {
    Comes(s, Standing(a.start, []), a.end, last)
  }

  /** Where the modules of a module written in place are looked for. */
  ghost predicate Placed<P, N>(w: World<P, N>, at: Place<P, N>, name: N, custom: Option<N>, inner: Place<P, N>) {
    && inner.prefix == at.prefix + [name] && inner.modules == inner.paths
    && match custom
       case Some(given) => inner.modules == w.join(at.paths, given)
       case None => inner.modules == w.join(at.modules, name)
  }

  /** `b` is between the braces of a module that `a` declares. */
  ghost predicate Opens<P(!new), N(!new)>(w: World<P, N>, s: Source<P, N>, a: Scope<P, N>, b: Scope<P, N>) {
    exists last, stop, name, custom :: ComesIn(s, a, last) && OpensAt(w, s, a, b, last, stop, name, custom)
  }

  ghost predicate OpensAt<P, N>(w: World<P, N>, s: Source<P, N>, a: Scope<P, N>, b: Scope<P, N>, last: Standing,
      stop: nat, name: N, custom: Option<N>)
  {
    && IsModule(s, a.start, a.end, last.at, stop, last.attributes, name, custom)
    && s.code[stop] == '{' && stop in s.pairs
    && b.start == stop + 1 && b.end == s.pairs[stop] && Placed(w, a.at, name, custom, b.at)
  }

  /** The function is written in the scope itself. */
  ghost predicate Writes<T, P(!new), N(!new)>(s: Source<P, N>, a: Scope<P, N>, f: Found<T, P, N>) {
    f.path == s.path && exists last, stop, name :: ComesIn(s, a, last) && WritesAt(s, a, f, last, stop, name)
  }

  ghost predicate WritesAt<T, P, N>(s: Source<P, N>, a: Scope<P, N>, f: Found<T, P, N>, last: Standing, stop: nat,
      name: N)
  {
    IsFunction(s, a.end, last.at, stop, last.attributes, f.line, name) && f.name == a.at.prefix + [name]
  }

  /** The file is one that the scope itself declares. */
  ghost predicate Sends<T, P(!new), N(!new)>(w: World<P, N>, s: Source<P, N>, a: Scope<P, N>, child: Key<T, P, N>) {
    exists last, stop, name, custom :: ComesIn(s, a, last) && SendsAt(w, s, a, child, last, stop, name, custom)
  }

  ghost predicate SendsAt<T, P, N>(w: World<P, N>, s: Source<P, N>, a: Scope<P, N>, child: Key<T, P, N>, last: Standing,
      stop: nat, name: N, custom: Option<N>)
  {
    && IsModule(s, a.start, a.end, last.at, stop, last.attributes, name, custom)
    && s.code[stop] == ';' && IsChild(w, a.at, name, custom, child)
  }

  /** The one existing file that such a declaration can mean, and where its own modules are looked for. */
  ghost predicate IsChild<T, P, N>(w: World<P, N>, at: Place<P, N>, name: N, custom: Option<N>, child: Key<T, P, N>) {
    && child.prefix == at.prefix + [name] && child.path in w.files
    && match custom
       case Some(given) => child.path == w.join(at.paths, given) && child.dir == w.parent(child.path)
       case None =>
         && (|| (child.path == w.rs(at.modules, name) && w.modRs(at.modules, name) !in w.files)
             || (child.path == w.modRs(at.modules, name) && w.rs(at.modules, name) !in w.files))
         && child.dir == if w.isMod(child.path) then w.parent(child.path) else w.stem(child.path)
  }

  lemma ChildExactly<T, P, N>(w: World<P, N>, at: Place<P, N>, name: N, custom: Option<N>, child: Key<T, P, N>)
    ensures IsChild(w, at, name, custom, child) <==> Child(w, child.target, at, name, custom) == Some(child)
  {
  }

  /** The reading stays in the scope. */
  lemma {:induction false} ComesGood<P(!new), N(!new)>(s: Source<P, N>, from: Standing, end: nat, trace: seq<Standing>,
      last: Standing)
    requires s.Good(from.at, end) && GoesTo(s, from, end, trace, last)
    ensures from.at <= last.at && s.Good(last.at, end)
    decreases |trace|
  {
    if |trace| > 1 {
      GoesFirst(s, from, end, trace, last);
      PassesGood(s, from.at, trace[1].at, end);
      ComesGood(s, trace[1], end, trace[1..], last);
    }
  }

  lemma PassesGood<P, N>(s: Source<P, N>, i: nat, next: nat, end: nat)
    requires s.Good(i, end) && Passes(s, i, next, end)
    ensures i < next && s.Good(next, end)
  {
    MarkInside(s.reader, s.code, s.pairs, i, end);
    if Begins(s, i, end) {
      var stop: nat :| PastItem(s, i, stop, next, end);
      Shorten(s.code, s.pairs, i, stop, end);
      if s.code[stop] == '{' {
        InsideClosed(s.code, s.pairs, stop, stop, end);
      }
    }
  }

  /** A scope of the file, and the items it is read to declare. */
  ghost predicate IsScope<P(!new), N(!new)>(s: Source<P, N>, a: Scope<P, N>, items: Items<N>) {
    && s.Good(a.start, a.end)
    && items == ItemsFrom(s.reader, s.path, s.code, s.pairs, a.start, a.start, a.end, [])
  }

  /** What an item of a scope defines. */
  ghost predicate Defining<T, P(!new), N(!new)>(w: World<P, N>, e: Entry<N>, target: T, path: P, at: Place<P, N>,
      f: Found<T, P, N>)
  {
    match e
    case AFunction(line, name) => f == Found(target, path, line, at.prefix + [name])
    case AModule(name, custom, body) =>
      body.Some? && f in Defined(w, body.value, target, path, Inside(w, at, name, custom))
  }

  ghost predicate Declaring<T, P(!new), N(!new)>(w: World<P, N>, e: Entry<N>, target: T, at: Place<P, N>,
      child: Key<T, P, N>)
  {
    e.AModule?
    && match e.body
       case None => Child(w, target, at, e.name, e.custom) == Some(child)
       case Some(body) => child in Declared(w, body, target, Inside(w, at, e.name, e.custom))
  }

  ghost function FirstEntry<N>(items: Items<N>): Entry<N>
    requires !items.End?
  {
    match items
    case Function(line, name, _) => AFunction(line, name)
    case Inline(name, custom, body, _) => AModule(name, custom, Some(body))
    case External(name, custom, _) => AModule(name, custom, None)
  }

  lemma {:induction false} DefinedLists<T, P(!new), N(!new)>(w: World<P, N>, items: Items<N>, target: T, path: P,
      at: Place<P, N>, f: Found<T, P, N>)
    ensures f in Defined(w, items, target, path, at)
            <==> exists e :: Lists(items, e) && Defining(w, e, target, path, at, f)
  {
    if !items.End? {
      DefinedLists(w, items.rest, target, path, at, f);
      forall e
        ensures Lists(items, e) <==> e == FirstEntry(items) || Lists(items.rest, e)
      {
      }
      assert Lists(items, FirstEntry(items));
      assert f in DefinedFirst(w, items, target, path, at) <==> Defining(w, FirstEntry(items), target, path, at, f);
    }
  }

  lemma {:induction false} DeclaredLists<T, P(!new), N(!new)>(w: World<P, N>, items: Items<N>, target: T,
      at: Place<P, N>, child: Key<T, P, N>)
    ensures child in Declared(w, items, target, at)
            <==> exists e :: Lists(items, e) && Declaring(w, e, target, at, child)
  {
    if !items.End? {
      DeclaredLists(w, items.rest, target, at, child);
      forall e
        ensures Lists(items, e) <==> e == FirstEntry(items) || Lists(items.rest, e)
      {
      }
      assert Lists(items, FirstEntry(items));
      assert child in DeclaredFirst(w, items, target, at) <==> Declaring(w, FirstEntry(items), target, at, child);
    }
  }

  lemma OpensGood<P(!new), N(!new)>(w: World<P, N>, s: Source<P, N>, a: Scope<P, N>, b: Scope<P, N>)
    requires s.Good(a.start, a.end) && Opens(w, s, a, b)
    ensures s.Good(b.start, b.end) && b.end - b.start < a.end - a.start
  {
    var last, stop: nat, name, custom :| ComesIn(s, a, last) && OpensAt(w, s, a, b, last, stop, name, custom);
    var trace :| GoesTo(s, Standing(a.start, []), a.end, trace, last);
    ComesGood(s, Standing(a.start, []), a.end, trace, last);
    Shorten(s.code, s.pairs, last.at, stop, a.end);
    InsideClosed(s.code, s.pairs, stop, stop, a.end);
  }

  /** Where an entry of the scope is, it is written there or in a module opened there. */
  lemma EntryDefines<T, P(!new), N(!new)>(w: World<P, N>, s: Source<P, N>, a: Scope<P, N>, e: Entry<N>,
      f: Found<T, P, N>)
    requires Holds(s, a.start, Standing(a.start, []), a.end, e) && Defining(w, e, f.target, s.path, a.at, f)
    ensures Writes(s, a, f) || exists b, body :: InnerDefines(w, s, a, b, body, f)
  {
    var last, stop: nat :| Comes(s, Standing(a.start, []), a.end, last)
                           && IsEntry(s, a.start, a.end, last.at, stop, last.attributes, e);
    assert ComesIn(s, a, last);
    if e.AFunction? {
      assert WritesAt(s, a, f, last, stop, e.name);
    } else {
      var b := Scope(stop + 1, s.pairs[stop], Inside(w, a.at, e.name, e.custom));
      assert OpensAt(w, s, a, b, last, stop, e.name, e.custom);
      assert InnerDefines(w, s, a, b, e.body.value, f);
    }
  }

  lemma WritesLists<T, P(!new), N(!new)>(w: World<P, N>, s: Source<P, N>, a: Scope<P, N>, items: Items<N>,
      f: Found<T, P, N>) returns (e: Entry<N>)
    requires IsScope(s, a, items) && Writes(s, a, f)
    ensures Lists(items, e) && Defining(w, e, f.target, s.path, a.at, f)
  {
    var last, stop: nat, name :| ComesIn(s, a, last) && WritesAt(s, a, f, last, stop, name);
    e := AFunction(f.line, name);
    assert IsEntry(s, a.start, a.end, last.at, stop, last.attributes, e);
    EntriesExactly(s, a.start, a.start, a.end, [], e);
  }

  /** What a scope is read to define is written in it, or in a module it opens. */
  lemma ScopeDefines<T, P(!new), N(!new)>(w: World<P, N>, s: Source<P, N>, a: Scope<P, N>, items: Items<N>,
      f: Found<T, P, N>)
    requires IsScope(s, a, items)
    ensures f in Defined(w, items, f.target, s.path, a.at)
            <==> Writes(s, a, f) || exists b, body :: InnerDefines(w, s, a, b, body, f)
  {
    DefinedLists(w, items, f.target, s.path, a.at, f);
    if e :| Lists(items, e) && Defining(w, e, f.target, s.path, a.at, f) {
      EntriesExactly(s, a.start, a.start, a.end, [], e);
      EntryDefines(w, s, a, e, f);
    }
    if Writes(s, a, f) {
      var e := WritesLists(w, s, a, items, f);
    }
    if b, body :| InnerDefines(w, s, a, b, body, f) {
      var e := OpensLists(w, s, a, items, b, body);
      assert Defining(w, e, f.target, s.path, a.at, f);
    }
  }

  ghost predicate InnerDefines<T, P(!new), N(!new)>(w: World<P, N>, s: Source<P, N>, a: Scope<P, N>, b: Scope<P, N>,
      body: Items<N>, f: Found<T, P, N>)
  {
    Opens(w, s, a, b) && IsScope(s, b, body) && f in Defined(w, body, f.target, s.path, b.at)
  }

  /** A module that is opened is listed with what is in it. */
  lemma OpensLists<P(!new), N(!new)>(w: World<P, N>, s: Source<P, N>, a: Scope<P, N>, items: Items<N>,
      b: Scope<P, N>, body: Items<N>) returns (e: Entry<N>)
    requires IsScope(s, a, items) && Opens(w, s, a, b) && IsScope(s, b, body)
    ensures Lists(items, e) && e.AModule? && e.body == Some(body) && b.at == Inside(w, a.at, e.name, e.custom)
  {
    var last, stop: nat, name, custom :| ComesIn(s, a, last) && OpensAt(w, s, a, b, last, stop, name, custom);
    e := AModule(name, custom, Some(body));
    assert IsEntry(s, a.start, a.end, last.at, stop, last.attributes, e);
    EntriesExactly(s, a.start, a.start, a.end, [], e);
  }

  ghost predicate InnerDeclares<T, P(!new), N(!new)>(w: World<P, N>, s: Source<P, N>, a: Scope<P, N>, b: Scope<P, N>,
      body: Items<N>, child: Key<T, P, N>)
  {
    Opens(w, s, a, b) && IsScope(s, b, body) && child in Declared(w, body, child.target, b.at)
  }

  /** Where an entry of the scope is, the file is sent for there or in a module opened there. */
  lemma EntryDeclares<T, P(!new), N(!new)>(w: World<P, N>, s: Source<P, N>, a: Scope<P, N>, e: Entry<N>,
      child: Key<T, P, N>)
    requires Holds(s, a.start, Standing(a.start, []), a.end, e) && Declaring(w, e, child.target, a.at, child)
    ensures Sends(w, s, a, child) || exists b, body :: InnerDeclares(w, s, a, b, body, child)
  {
    var last, stop: nat :| Comes(s, Standing(a.start, []), a.end, last)
                           && IsEntry(s, a.start, a.end, last.at, stop, last.attributes, e);
    assert ComesIn(s, a, last);
    if e.body.None? {
      ChildExactly(w, a.at, e.name, e.custom, child);
      assert SendsAt(w, s, a, child, last, stop, e.name, e.custom);
    } else {
      var b := Scope(stop + 1, s.pairs[stop], Inside(w, a.at, e.name, e.custom));
      assert OpensAt(w, s, a, b, last, stop, e.name, e.custom);
      assert InnerDeclares(w, s, a, b, e.body.value, child);
    }
  }

  lemma SendsLists<T, P(!new), N(!new)>(w: World<P, N>, s: Source<P, N>, a: Scope<P, N>, items: Items<N>,
      child: Key<T, P, N>) returns (e: Entry<N>)
    requires IsScope(s, a, items) && Sends(w, s, a, child)
    ensures Lists(items, e) && Declaring(w, e, child.target, a.at, child)
  {
    var last, stop: nat, name, custom :| ComesIn(s, a, last) && SendsAt(w, s, a, child, last, stop, name, custom);
    ChildExactly(w, a.at, name, custom, child);
    e := AModule(name, custom, None);
    assert IsEntry(s, a.start, a.end, last.at, stop, last.attributes, e);
    EntriesExactly(s, a.start, a.start, a.end, [], e);
  }

  /** What a scope is read to declare is sent for by it, or by a module it opens. */
  lemma ScopeDeclares<T, P(!new), N(!new)>(w: World<P, N>, s: Source<P, N>, a: Scope<P, N>, items: Items<N>,
      child: Key<T, P, N>)
    requires IsScope(s, a, items)
    ensures child in Declared(w, items, child.target, a.at)
            <==> Sends(w, s, a, child) || exists b, body :: InnerDeclares(w, s, a, b, body, child)
  {
    DeclaredLists(w, items, child.target, a.at, child);
    if e :| Lists(items, e) && Declaring(w, e, child.target, a.at, child) {
      EntriesExactly(s, a.start, a.start, a.end, [], e);
      EntryDeclares(w, s, a, e, child);
    }
    if Sends(w, s, a, child) {
      var e := SendsLists(w, s, a, items, child);
    }
    if b, body :| InnerDeclares(w, s, a, b, body, child) {
      var e := OpensLists(w, s, a, items, b, body);
      assert Declaring(w, e, child.target, a.at, child);
    }
  }

  // ----- scopes in scopes

  /** Each scope of the trail is a module that the one before opens. */
  ghost predicate Nests<P(!new), N(!new)>(w: World<P, N>, s: Source<P, N>, trail: seq<Scope<P, N>>) {
    trail != [] && forall k :: 0 <= k < |trail| - 1 ==> NestsAt(w, s, trail, k)
  }

  ghost predicate NestsAt<P(!new), N(!new)>(w: World<P, N>, s: Source<P, N>, trail: seq<Scope<P, N>>, k: nat)
    requires k < |trail| - 1
  {
    Opens(w, s, trail[k], trail[k + 1])
  }

  /** A trail of scopes leads from one to another. */
  ghost predicate Trail<P(!new), N(!new)>(w: World<P, N>, s: Source<P, N>, trail: seq<Scope<P, N>>, a: Scope<P, N>,
      b: Scope<P, N>)
  {
    Nests(w, s, trail) && trail[0] == a && trail[|trail| - 1] == b
  }

  /** `b` is `a` or in a module in a module of it. */
  ghost predicate Holding<P(!new), N(!new)>(w: World<P, N>, s: Source<P, N>, a: Scope<P, N>, b: Scope<P, N>) {
    exists trail :: Trail(w, s, trail, a, b)
  }

  lemma TrailFirst<P(!new), N(!new)>(w: World<P, N>, s: Source<P, N>, trail: seq<Scope<P, N>>, a: Scope<P, N>,
      b: Scope<P, N>)
    requires |trail| > 1
    ensures Trail(w, s, trail, a, b)
            <==> trail[0] == a && Opens(w, s, a, trail[1]) && Trail(w, s, trail[1..], trail[1], b)
  {
    var rest := trail[1..];
    if Trail(w, s, trail, a, b) {
      assert NestsAt(w, s, trail, 0);
      forall k | 0 <= k < |rest| - 1
        ensures NestsAt(w, s, rest, k)
      {
        assert NestsAt(w, s, trail, k + 1);
      }
    }
    if trail[0] == a && Opens(w, s, a, trail[1]) && Trail(w, s, rest, trail[1], b) {
      forall k | 0 <= k < |trail| - 1
        ensures NestsAt(w, s, trail, k)
      {
        if k > 0 {
          assert NestsAt(w, s, rest, k - 1);
        }
      }
    }
  }

  ghost predicate HoldingBy<P(!new), N(!new)>(w: World<P, N>, s: Source<P, N>, a: Scope<P, N>, c: Scope<P, N>,
      b: Scope<P, N>)
  {
    Opens(w, s, a, c) && Holding(w, s, c, b)
  }

  lemma HoldingFirst<P(!new), N(!new)>(w: World<P, N>, s: Source<P, N>, a: Scope<P, N>, b: Scope<P, N>)
    ensures Holding(w, s, a, b) <==> a == b || exists c :: HoldingBy(w, s, a, c, b)
  {
    if trail :| Trail(w, s, trail, a, b) {
      if |trail| > 1 {
        TrailFirst(w, s, trail, a, b);
        assert HoldingBy(w, s, a, trail[1], b);
      }
    }
    if a == b {
      assert Trail(w, s, [a], a, b);
    }
    if c :| HoldingBy(w, s, a, c, b) {
      var rest :| Trail(w, s, rest, c, b);
      var trail := [a] + rest;
      assert trail[1..] == rest;
      TrailFirst(w, s, trail, a, b);
    }
  }

  // ----- what a file means

  ghost predicate WritesIn<T, P(!new), N(!new)>(w: World<P, N>, s: Source<P, N>, a: Scope<P, N>, b: Scope<P, N>,
      f: Found<T, P, N>)
  {
    Holding(w, s, a, b) && Writes(s, b, f)
  }

  ghost predicate SendsIn<T, P(!new), N(!new)>(w: World<P, N>, s: Source<P, N>, a: Scope<P, N>, b: Scope<P, N>,
      child: Key<T, P, N>)
  {
    Holding(w, s, a, b) && Sends(w, s, b, child)
  }

  /** What is written in a scope or its modules is written in it, or in one it opens or that one's modules. */
  lemma WritesFirst<T, P(!new), N(!new)>(w: World<P, N>, s: Source<P, N>, a: Scope<P, N>, f: Found<T, P, N>)
    ensures (exists b :: WritesIn(w, s, a, b, f))
            <==> Writes(s, a, f) || exists c, b :: Opens(w, s, a, c) && WritesIn(w, s, c, b, f)
  {
    if b :| WritesIn(w, s, a, b, f) {
      HoldingFirst(w, s, a, b);
      if a != b {
        var c :| HoldingBy(w, s, a, c, b);
        assert WritesIn(w, s, c, b, f);
      }
    }
    if Writes(s, a, f) {
      HoldingFirst(w, s, a, a);
      assert WritesIn(w, s, a, a, f);
    }
    if c, b :| Opens(w, s, a, c) && WritesIn(w, s, c, b, f) {
      assert HoldingBy(w, s, a, c, b);
      HoldingFirst(w, s, a, b);
      assert WritesIn(w, s, a, b, f);
    }
  }

  lemma SendsFirst<T, P(!new), N(!new)>(w: World<P, N>, s: Source<P, N>, a: Scope<P, N>, child: Key<T, P, N>)
    ensures (exists b :: SendsIn(w, s, a, b, child))
            <==> Sends(w, s, a, child) || exists c, b :: Opens(w, s, a, c) && SendsIn(w, s, c, b, child)
  {
    if b :| SendsIn(w, s, a, b, child) {
      HoldingFirst(w, s, a, b);
      if a != b {
        var c :| HoldingBy(w, s, a, c, b);
        assert SendsIn(w, s, c, b, child);
      }
    }
    if Sends(w, s, a, child) {
      HoldingFirst(w, s, a, a);
      assert SendsIn(w, s, a, a, child);
    }
    if c, b :| Opens(w, s, a, c) && SendsIn(w, s, c, b, child) {
      assert HoldingBy(w, s, a, c, b);
      HoldingFirst(w, s, a, b);
      assert SendsIn(w, s, a, b, child);
    }
  }

  lemma {:induction false} ScopesDefine<T, P(!new), N(!new)>(w: World<P, N>, s: Source<P, N>, a: Scope<P, N>,
      items: Items<N>, f: Found<T, P, N>)
    requires IsScope(s, a, items)
    ensures f in Defined(w, items, f.target, s.path, a.at) <==> exists b :: WritesIn(w, s, a, b, f)
    decreases a.end - a.start
  {
    ScopeDefines(w, s, a, items, f);
    WritesFirst(w, s, a, f);
    forall c | Opens(w, s, a, c)
      ensures (exists body :: InnerDefines(w, s, a, c, body, f)) <==> exists b :: WritesIn(w, s, c, b, f)
    {
      OpensGood(w, s, a, c);
      var body := ItemsFrom(s.reader, s.path, s.code, s.pairs, c.start, c.start, c.end, []);
      assert IsScope(s, c, body);
      ScopesDefine(w, s, c, body, f);
      assert InnerDefines(w, s, a, c, body, f) <==> f in Defined(w, body, f.target, s.path, c.at);
    }
  }

  lemma {:induction false} ScopesDeclare<T, P(!new), N(!new)>(w: World<P, N>, s: Source<P, N>, a: Scope<P, N>,
      items: Items<N>, child: Key<T, P, N>)
    requires IsScope(s, a, items)
    ensures child in Declared(w, items, child.target, a.at) <==> exists b :: SendsIn(w, s, a, b, child)
    decreases a.end - a.start
  {
    ScopeDeclares(w, s, a, items, child);
    SendsFirst(w, s, a, child);
    forall c | Opens(w, s, a, c)
      ensures (exists body :: InnerDeclares(w, s, a, c, body, child)) <==> exists b :: SendsIn(w, s, c, b, child)
    {
      OpensGood(w, s, a, c);
      var body := ItemsFrom(s.reader, s.path, s.code, s.pairs, c.start, c.start, c.end, []);
      assert IsScope(s, c, body);
      ScopesDeclare(w, s, c, body, child);
      assert InnerDeclares(w, s, a, c, body, child) <==> child in Declared(w, body, child.target, c.at);
    }
  }

  /** A file whose delimiters match, and all of it as a scope: modules are looked for in the directory it is
      given, and modules with a path beside the file. */
  ghost predicate Reading<T, P(!new), N(!new)>(w: World<P, N>, key: Key<T, P, N>, s: Source<P, N>, whole: Scope<P, N>) {
    && Reads(w.reader) && key.path in w.files
    && s.reader == w.reader && s.path == key.path && s.code == w.files[key.path]
    && Scan(Tokens(s.code), 0, [], map[]) == Ok(s.pairs)
    && whole.start == 0 && whole.end == |s.code|
    && whole.at.modules == key.dir && whole.at.paths == w.parent(key.path) && whole.at.prefix == key.prefix
  }

  lemma {:induction false} DefinedTarget<T, P, N>(w: World<P, N>, items: Items<N>, target: T, path: P, at: Place<P, N>,
      f: Found<T, P, N>)
    requires f in Defined(w, items, target, path, at)
    ensures f.target == target
    decreases items
  {
    if f in Defined(w, items.rest, target, path, at) {
      DefinedTarget(w, items.rest, target, path, at, f);
    } else if items.Inline? {
      DefinedTarget(w, items.body, target, path, Inside(w, at, items.name, items.custom), f);
    }
  }

  /** What a file that is read declares, by its whole scope. */
  lemma ReadingFile<T, P(!new), N(!new)>(w: World<P, N>, key: Key<T, P, N>, s: Source<P, N>, whole: Scope<P, N>)
      returns (items: Items<N>)
    requires Reading(w, key, s, whole)
    ensures IsScope(s, whole, items)
    ensures Functions(w, key) == Defined(w, items, key.target, s.path, whole.at)
    ensures Children(w, key) == Declared(w, items, key.target, whole.at)
  {
    CodeClosed(s.code, s.pairs);
    items := ItemsFrom(s.reader, s.path, s.code, s.pairs, 0, 0, |s.code|, []);
    assert whole.at == PlaceOf(w, key);
  }

  /** A file that is not read declares nothing. */
  lemma SomeReading<T, P(!new), N(!new)>(w: World<P, N>, key: Key<T, P, N>)
    requires Functions(w, key) != {} || Children(w, key) != {}
    ensures exists s, whole :: Reading(w, key, s, whole)
  {
    var code := w.files[key.path];
    var s := Source(w.reader, key.path, code, Scan(Tokens(code), 0, [], map[]).value);
    assert Reading(w, key, s, Scope(0, |code|, PlaceOf(w, key)));
  }

  /** A file defines exactly the functions written in it or in a module in it. */
  lemma FunctionsExactly<T, P(!new), N(!new)>(w: World<P, N>, key: Key<T, P, N>, f: Found<T, P, N>)
    ensures f in Functions(w, key)
            <==> f.target == key.target && exists s, whole, b ::
              Reading(w, key, s, whole) && WritesIn(w, s, whole, b, f)
  {
    if f in Functions(w, key) {
      SomeReading(w, key);
      var s, whole :| Reading(w, key, s, whole);
      var items := ReadingFile(w, key, s, whole);
      DefinedTarget(w, items, key.target, s.path, whole.at, f);
      ScopesDefine(w, s, whole, items, f);
    }
    if s, whole, b :| f.target == key.target && Reading(w, key, s, whole) && WritesIn(w, s, whole, b, f) {
      var items := ReadingFile(w, key, s, whole);
      ScopesDefine(w, s, whole, items, f);
    }
  }

  /** A file declares exactly the files that it or a module in it sends for. */
  lemma ChildrenExactly<T, P(!new), N(!new)>(w: World<P, N>, key: Key<T, P, N>, child: Key<T, P, N>)
    ensures child in Children(w, key)
            <==> child.target == key.target
                 && exists s, whole, b :: Reading(w, key, s, whole) && SendsIn(w, s, whole, b, child)
  {
    if child in Children(w, key) {
      SomeReading(w, key);
      var s, whole :| Reading(w, key, s, whole);
      var items := ReadingFile(w, key, s, whole);
      DeclaredNames(w, items, key.target, whole.at, child);
      ScopesDeclare(w, s, whole, items, child);
    }
    if s, whole, b :| child.target == key.target && Reading(w, key, s, whole) && SendsIn(w, s, whole, b, child) {
      var items := ReadingFile(w, key, s, whole);
      ScopesDeclare(w, s, whole, items, child);
    }
  }

  /** The walk starts at each target's file, whose modules are beside it. */
  lemma RootsExactly<T, P, N>(w: World<P, N>, targets: seq<(T, P)>, key: Key<T, P, N>)
    ensures key in RootsOf(w, targets)
            <==> (key.target, key.path) in targets && key.dir == w.parent(key.path) && key.prefix == []
  {
    if (key.target, key.path) in targets && key.dir == w.parent(key.path) && key.prefix == [] {
      assert key == RootOf(w, (key.target, key.path));
    }
  }
}
