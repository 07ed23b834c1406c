/** scripts/rust_test_reachability.py: what a stretch of a file's masked code declares. The regular
    expressions are functions of the text. */
module ModuleText {
  import opened Results
  import opened Delimiters

  datatype Items<N> =
    | End
    | Function(line: nat, name: N, rest: Items<N>)
    | Inline(name: N, custom: Option<N>, body: Items<N>, rest: Items<N>)
    | External(name: N, custom: Option<N>, rest: Items<N>)

  /** Where `ATTRIBUTE` matches: whether it is an inner attribute, and its bracket. */
  datatype Mark = Mark(inner: bool, open: nat)

  /** What `MODULE` and `FUNCTION` make of an item's header. */
  datatype Header<N> = Module(name: N) | Definition(name: N) | Other

  /** What an attribute says of its module's path: nothing, a path, or a path that cannot be read. */
  datatype PathValue<N> = NoPath | Custom(path: N) | BadPath

  datatype Reader<!P, !N> = Reader(
      space: char -> bool,
      attribute: (string, nat) -> Option<Mark>,
      enabled: string -> bool,
      header: string -> Header<N>,
      path: (P, nat, nat, string) -> PathValue<N>)

  function TokenOf(c: char): (token: Token)
    ensures token == Open(Round) <==> c == '('
    ensures token == Open(Square) <==> c == '['
    ensures token == Open(Curly) <==> c == '{'
    ensures token == Close(Round) <==> c == ')'
    ensures token == Close(Square) <==> c == ']'
    ensures token == Close(Curly) <==> c == '}'
    ensures token == Plain <==> c !in "([{)]}"
  {
    match c
    case '(' => Open(Round)
    case '[' => Open(Square)
    case '{' => Open(Curly)
    case ')' => Close(Round)
    case ']' => Close(Square)
    case '}' => Close(Curly)
    case _ => Plain
  }

  function Tokens(code: string): (tokens: seq<Token>)
    ensures |tokens| == |code| && forall i :: 0 <= i < |code| ==> tokens[i] == TokenOf(code[i])
  {
    seq(|code|, i requires 0 <= i < |code| => TokenOf(code[i]))
  }

  /** An attribute is a `#` with its bracket after it, and no delimiter between. */
  ghost predicate Reads<P, N>(r: Reader<P, N>) {
    forall code, i :: Marks(r, code, i)
  }

  ghost predicate Marks<P, N>(r: Reader<P, N>, code: string, i: nat) {
    match r.attribute(code, i)
    case None => true
    case Some(mark) =>
      i < mark.open < |code| && code[mark.open] == '[' && forall k :: i <= k < mark.open ==> TokenOf(code[k]) == Plain
  }

  // ----- stretches

  /** Every opener of the stretch has its closer in it, and the stretch ends at a closer or with the code. */
  ghost predicate Closed(code: string, m: map<nat, nat>, from: nat, end: nat) {
    && from <= end <= |code| && (end < |code| ==> TokenOf(code[end]).Close?)
    && forall k :: from <= k < end ==> Within(code, m, k, end)
  }

  ghost predicate Within(code: string, m: map<nat, nat>, k: nat, end: nat)
    requires end <= |code|
  {
    k < end && TokenOf(code[k]).Open? ==> k in m && k < m[k] < end && Closing(code, m, k)
  }

  ghost predicate Closing(code: string, m: map<nat, nat>, k: nat)
    requires k in m
  {
    m[k] < |code| && TokenOf(code[m[k]]).Close?
  }

  lemma CodeClosed(code: string, m: map<nat, nat>)
    requires Scan(Tokens(code), 0, [], map[]) == Ok(m)
    ensures Closed(code, m, 0, |code|) && Nested(m)
  {
    var tokens := Tokens(code);
    AcceptsExactly(tokens);
    var f: Forest :| Text(f) == tokens;
    AcceptsForest(tokens, f);
    forall k: nat | k < |code|
      ensures Within(code, m, k, |code|)
    {
      assert Facing(tokens, m, 0, |code|, k);
    }
  }

  lemma Shorten(code: string, m: map<nat, nat>, from: nat, later: nat, end: nat)
    requires Closed(code, m, from, end) && from <= later <= end
    ensures Closed(code, m, later, end)
  {
  }

  /** What is between an opener and its closer is closed. */
  lemma InsideClosed(code: string, m: map<nat, nat>, from: nat, open: nat, end: nat)
    requires Closed(code, m, from, end) && Nested(m) && from <= open < end && TokenOf(code[open]).Open?
    ensures open in m && open < m[open] < end && Closed(code, m, open + 1, m[open]) && Closed(code, m, m[open] + 1, end)
  {
    assert Within(code, m, open, end);
    forall k | open + 1 <= k < m[open]
      ensures Within(code, m, k, m[open])
    {
      assert Within(code, m, k, end);
      assert !Crosses(m, open, k);
    }
  }

  /** An attribute that begins in a stretch is in it. */
  lemma MarkInside<P, N>(r: Reader<P, N>, code: string, m: map<nat, nat>, cursor: nat, end: nat)
    requires Reads(r) && Closed(code, m, cursor, end) && Nested(m) && cursor < end
    ensures var mark := r.attribute(code, cursor);
            mark.Some? ==>
              var open := mark.value.open;
              cursor < open < end && open in m && open < m[open] < end && Closed(code, m, m[open] + 1, end)
  {
    assert Marks(r, code, cursor);
    var mark := r.attribute(code, cursor);
    if mark.Some? {
      var open := mark.value.open;
      assert forall k :: cursor <= k <= open ==> !TokenOf(code[k]).Close?;
      InsideClosed(code, m, cursor, open, end);
    }
  }

  // ----- the parts of an item

  /** Where the item that begins at `cursor` has its body or its semicolon. */
  function StopOf(code: string, m: map<nat, nat>, cursor: nat, end: nat): (stop: nat)
    requires Closed(code, m, cursor, end) && Nested(m)
    ensures cursor <= stop <= end && Closed(code, m, stop, end)
            && (stop < end ==> code[stop] == '{' || code[stop] == ';')
    decreases end - cursor
  {
    if cursor == end || code[cursor] == '{' || code[cursor] == ';' then cursor
    else if code[cursor] == '(' || code[cursor] == '[' then
      InsideClosed(code, m, cursor, cursor, end);
      StopOf(code, m, m[cursor] + 1, end)
    else
      Shorten(code, m, cursor, cursor + 1, end);
      StopOf(code, m, cursor + 1, end)
  }

  /** The inner attributes at the start of a function's body allow it. */
  function BodyEnabled<P, N>(r: Reader<P, N>, code: string, m: map<nat, nat>, body: nat, end: nat): bool
    requires Reads(r) && Closed(code, m, body, end) && Nested(m)
    decreases end - body
  {
    if body == end then true
    else if r.space(code[body]) then
      Shorten(code, m, body, body + 1, end);
      BodyEnabled(r, code, m, body + 1, end)
    else
      MarkInside(r, code, m, body, end);
      match r.attribute(code, body)
      case None => true
      case Some(mark) =>
        if !mark.inner then true
        else r.enabled(code[mark.open + 1..m[mark.open]]) && BodyEnabled(r, code, m, m[mark.open] + 1, end)
  }

  predicate AllEnabled<P, N>(r: Reader<P, N>, attributes: seq<string>) {
    forall i :: 0 <= i < |attributes| ==> r.enabled(attributes[i])
  }

  /** The last path the attributes give their module, unless one of them cannot be read. */
  function PathOf<P, N>(r: Reader<P, N>, path: P, start: nat, item: nat, attributes: seq<string>): PathValue<N> {
    if attributes == [] then NoPath
    else
      var n := |attributes| - 1;
      var before := PathOf(r, path, start, item, attributes[..n]);
      if before.BadPath? then BadPath
      else
        match r.path(path, start, item, attributes[n])
        case NoPath => before
        case last => last
  }

  function Lines(code: string): nat {
    if code == "" then 0 else Lines(code[..|code| - 1]) + if code[|code| - 1] == '\n' then 1 else 0
  }

  // ----- what a stretch declares

  function AfterItem(code: string, m: map<nat, nat>, stop: nat, end: nat): (next: nat)
    requires Closed(code, m, stop, end) && Nested(m) && stop < end
    ensures stop < next <= end && Closed(code, m, next, end)
  {
    if code[stop] == '{' then
      InsideClosed(code, m, stop, stop, end);
      m[stop] + 1
    else
      Shorten(code, m, stop, stop + 1, end);
      stop + 1
  }

  /** The items of a scope from `cursor` on, with the attributes read since the last one. */
  function ItemsFrom<P, N>(r: Reader<P, N>, path: P, code: string, m: map<nat, nat>, start: nat, cursor: nat, end: nat,
      attributes: seq<string>): Items<N>
    requires Reads(r) && Closed(code, m, cursor, end) && Nested(m)
    decreases end - cursor, 2
  {
    if cursor == end then End
    else if r.space(code[cursor]) || code[cursor] == ';' then
      Shorten(code, m, cursor, cursor + 1, end);
      ItemsFrom(r, path, code, m, start, cursor + 1, end, attributes)
    else
      MarkInside(r, code, m, cursor, end);
      match r.attribute(code, cursor)
      case Some(mark) =>
        var value, next := code[mark.open + 1..m[mark.open]], m[mark.open] + 1;
        if !mark.inner then ItemsFrom(r, path, code, m, start, next, end, attributes + [value])
        else if r.enabled(value) then ItemsFrom(r, path, code, m, start, next, end, attributes)
        else End
      case None =>
        var stop := StopOf(code, m, cursor, end);
        if stop == end then End
        else
          var rest := ItemsFrom(r, path, code, m, start, AfterItem(code, m, stop, end), end, []);
          ItemAt(r, path, code, m, start, cursor, stop, end, attributes, rest)
  }

  /** The item from `item` to `stop`, before the rest. */
  function ItemAt<P, N>(r: Reader<P, N>, path: P, code: string, m: map<nat, nat>, start: nat, item: nat, stop: nat,
      end: nat, attributes: seq<string>, rest: Items<N>): Items<N>
    requires Reads(r) && item <= stop < end && Closed(code, m, stop, end) && Nested(m)
    decreases end - stop, 1
  {
    if !AllEnabled(r, attributes) then rest
    else
      match r.header(code[item..stop])
      case Other => rest
      case Definition(name) =>
        Shorten(code, m, stop, stop + 1, end);
        if BodyEnabled(r, code, m, stop + 1, end) then Function(Lines(code[..item]) + 1, name, rest) else rest
      case Module(name) =>
        var given := PathOf(r, path, start, item, attributes);
        if given.BadPath? then rest
        else
          var custom := if given.NoPath? then None else Some(given.path);
          DeclarationAt(r, path, code, m, stop, end, name, custom, rest)
  }

  function DeclarationAt<P, N>(r: Reader<P, N>, path: P, code: string, m: map<nat, nat>, stop: nat, end: nat,
      name: N, custom: Option<N>, rest: Items<N>): (now: Items<N>)
    requires Reads(r) && stop < end && Closed(code, m, stop, end) && Nested(m)
    ensures !now.End? && now.rest == rest
    decreases end - stop, 0
  {
    if code[stop] == '{' then
      InsideClosed(code, m, stop, stop, end);
      Inline(name, custom, ItemsFrom(r, path, code, m, stop + 1, stop + 1, m[stop], []), rest)
    else External(name, custom, rest)
  }

  /** A file's items, None when its delimiters do not match. */
  function Parsed<P, N>(r: Reader<P, N>, path: P, code: string): Option<Items<N>>
    requires Reads(r)
  {
    match Scan(Tokens(code), 0, [], map[])
    case Err(_) => None
    case Ok(m) =>
      CodeClosed(code, m);
      Some(ItemsFrom(r, path, code, m, 0, 0, |code|, []))
  }

  // ----- the loops

  method FindStop(code: string, m: map<nat, nat>, item: nat, end: nat) returns (stop: nat)
    requires Closed(code, m, item, end) && Nested(m)
    ensures stop == StopOf(code, m, item, end)
  {
    stop := item;
    while stop < end && code[stop] != '{' && code[stop] != ';'
      invariant item <= stop <= end && Closed(code, m, stop, end)
      invariant StopOf(code, m, stop, end) == StopOf(code, m, item, end)
      decreases end - stop
    {
      if code[stop] == '(' || code[stop] == '[' {
        InsideClosed(code, m, stop, stop, end);
        stop := m[stop] + 1;
      } else {
        stop := stop + 1;
      }
    }
  }

  method CheckBody<P, N>(r: Reader<P, N>, code: string, m: map<nat, nat>, from: nat, end: nat) returns (enabled: bool)
    requires Reads(r) && Closed(code, m, from, end) && Nested(m)
    ensures enabled == BodyEnabled(r, code, m, from, end)
  {
    var body := from;
    enabled := true;
    while body < end
      invariant from <= body <= end && Closed(code, m, body, end)
      invariant BodyEnabled(r, code, m, from, end) == (enabled && BodyEnabled(r, code, m, body, end))
      decreases end - body
    {
      if r.space(code[body]) {
        body := body + 1;
        continue;
      }
      MarkInside(r, code, m, body, end);
      var mark := r.attribute(code, body);
      if mark.None? || !mark.value.inner {
        break;
      }
      var close := m[mark.value.open];
      enabled := enabled && r.enabled(code[mark.value.open + 1..close]);
      body := close + 1;
    }
  }

  function PathGiven<N>(custom: Option<N>): PathValue<N> {
    if custom.None? then NoPath else Custom(custom.value)
  }

  method FindPath<P, N>(r: Reader<P, N>, path: P, start: nat, item: nat, attributes: seq<string>)
      returns (enabled: bool, custom: Option<N>)
    ensures enabled <==> !PathOf(r, path, start, item, attributes).BadPath?
    ensures enabled ==> PathOf(r, path, start, item, attributes) == PathGiven(custom)
  {
    enabled, custom := true, None;
    for i := 0 to |attributes|
      invariant enabled <==> !PathOf(r, path, start, item, attributes[..i]).BadPath?
      invariant enabled ==> PathOf(r, path, start, item, attributes[..i]) == PathGiven(custom)
    {
      assert attributes[..i + 1][..i] == attributes[..i];
      match r.path(path, start, item, attributes[i])
      case NoPath =>
      case Custom(given) => custom := Some(given);
      case BadPath => enabled := false;
    }
    assert attributes[..|attributes|] == attributes;
  }

  /** One step over a stretch: past a blank or an attribute, up to an item, or none when nothing more
      is declared. */
  datatype Step = Past(next: nat, attributes: seq<string>) | OneItem(stop: nat, next: nat) | NoMore

  /** What the stretch declares is what it declares from the next place on, or the item there and then
      that, or nothing. */
  ghost predicate Steps<P, N>(r: Reader<P, N>, path: P, code: string, m: map<nat, nat>, start: nat, cursor: nat,
      end: nat, attributes: seq<string>, step: Step)
    requires Reads(r) && cursor < end && Closed(code, m, cursor, end) && Nested(m)
  {
    var items := ItemsFrom(r, path, code, m, start, cursor, end, attributes);
    match step
    case NoMore => items == End
    case Past(next, given) =>
      && cursor < next <= end && Closed(code, m, next, end)
      && items == ItemsFrom(r, path, code, m, start, next, end, given)
    case OneItem(stop, next) =>
      && cursor <= stop < next <= end && Closed(code, m, stop, end) && Closed(code, m, next, end)
      && items == ItemAt(r, path, code, m, start, cursor, stop, end, attributes,
                         ItemsFrom(r, path, code, m, start, next, end, []))
  }

  method Advance<P, N>(r: Reader<P, N>, path: P, code: string, m: map<nat, nat>, start: nat, cursor: nat, end: nat,
      attributes: seq<string>) returns (step: Step)
    requires Reads(r) && cursor < end && Closed(code, m, cursor, end) && Nested(m)
    ensures Steps(r, path, code, m, start, cursor, end, attributes, step)
  {
    if r.space(code[cursor]) || code[cursor] == ';' {
      return Past(cursor + 1, attributes);
    }
    MarkInside(r, code, m, cursor, end);
    match r.attribute(code, cursor)
    case Some(mark) =>
      var close := m[mark.open];
      var value := code[mark.open + 1..close];
      if !mark.inner {
        return Past(close + 1, attributes + [value]);
      }
      step := if r.enabled(value) then Past(close + 1, attributes) else NoMore;
    case None =>
      var stop := FindStop(code, m, cursor, end);
      if stop == end {
        return NoMore;
      }
      step := OneItem(stop, AfterItem(code, m, stop, end));
  }

  /** What an item is to the walk. */
  datatype Kind<N> = Skipped | Defines(line: nat, name: N) | Declares(name: N, custom: Option<N>)

  /** Such an item before the rest. */
  function Before<P, N>(r: Reader<P, N>, path: P, code: string, m: map<nat, nat>, stop: nat, end: nat, kind: Kind<N>,
      rest: Items<N>): Items<N>
    requires Reads(r) && stop < end && Closed(code, m, stop, end) && Nested(m)
  {
    match kind
    case Skipped => rest
    case Defines(line, name) => Function(line, name, rest)
    case Declares(name, custom) => DeclarationAt(r, path, code, m, stop, end, name, custom, rest)
  }

  method Classify<P, N>(r: Reader<P, N>, path: P, code: string, m: map<nat, nat>, start: nat, item: nat, stop: nat,
      end: nat, attributes: seq<string>, ghost rest: Items<N>) returns (kind: Kind<N>)
    requires Reads(r) && item <= stop < end && Closed(code, m, stop, end) && Nested(m)
    ensures ItemAt(r, path, code, m, start, item, stop, end, attributes, rest)
            == Before(r, path, code, m, stop, end, kind, rest)
  {
    if !AllEnabled(r, attributes) {
      return Skipped;
    }
    match r.header(code[item..stop])
    case Other =>
      kind := Skipped;
    case Definition(name) =>
      Shorten(code, m, stop, stop + 1, end);
      var enabled := CheckBody(r, code, m, stop + 1, end);
      kind := if enabled then Defines(Lines(code[..item]) + 1, name) else Skipped;
    case Module(name) =>
      var enabled, custom := FindPath(r, path, start, item, attributes);
      kind := if enabled then Declares(name, custom) else Skipped;
  }
}
