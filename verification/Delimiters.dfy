/** scripts/check_prism_pool_acquires.py: matching delimiters. */
module Delimiters {
  import opened Results

  datatype Shape = Round | Square | Curly

  datatype Token = Open(shape: Shape) | Close(shape: Shape) | Plain

  // ----- the reference: well-nested text

  datatype Forest = Empty | Word(rest: Forest) | Group(shape: Shape, inside: Forest, rest: Forest)

  function Text(f: Forest): seq<Token> {
    match f
    case Empty => []
    case Word(rest) => [Plain] + Text(rest)
    case Group(shape, inside, rest) => [Open(shape)] + (Text(inside) + ([Close(shape)] + Text(rest)))
  }

  /** Each delimiter's partner, for text that starts at `at`. */
  function Partners(f: Forest, at: nat): map<nat, nat> {
    match f
    case Empty => map[]
    case Word(rest) => Partners(rest, at + 1)
    case Group(_, inside, rest) =>
      var close := at + 1 + |Text(inside)|;
      map[at := close, close := at] + Partners(inside, at + 1) + Partners(rest, close + 1)
  }

  // ----- the scan

  datatype Fault = Unmatched(at: nat) | Mismatched(at: nat) | Unclosed

  predicate Below(stack: seq<nat>, i: nat) {
    forall k :: 0 <= k < |stack| ==> stack[k] < i
  }

  /** The rest of the scan, from token `i`, with the openers in `stack` waiting. */
  function Scan(tokens: seq<Token>, i: nat, stack: seq<nat>, found: map<nat, nat>): Result<map<nat, nat>, Fault>
    requires i <= |tokens| && Below(stack, i)
    decreases |tokens| - i
  {
    if i == |tokens| then (if stack == [] then Ok(found) else Err(Unclosed))
    else
      match tokens[i]
      case Plain => Scan(tokens, i + 1, stack, found)
      case Open(_) => Scan(tokens, i + 1, stack + [i], found)
      case Close(shape) =>
        if stack == [] then Err(Unmatched(i))
        else
          var start := stack[|stack| - 1];
          if tokens[start] != Open(shape) then Err(Mismatched(i))
          else Scan(tokens, i + 1, stack[..|stack| - 1], found[start := i][i := start])
  }

  /** `pairs`: it accepts exactly the well-nested texts, and pairs their delimiters. */
  method Pairs(tokens: seq<Token>) returns (r: Result<map<nat, nat>, Fault>)
    ensures r == Scan(tokens, 0, [], map[])
    ensures r.Ok? <==> WellNested(tokens)
    ensures r.Ok? ==> Paired(tokens, r.value, 0, |tokens|)
  {
    r := PairUp(tokens);
    AcceptsExactly(tokens);
    if r.Ok? {
      ghost var f: Forest :| Text(f) == tokens;
      AcceptsForest(tokens, f);
    }
  }

  method PairUp(tokens: seq<Token>) returns (r: Result<map<nat, nat>, Fault>)
    ensures r == Scan(tokens, 0, [], map[])
  {
    var stack: seq<nat>, found := [], map[];
    for i := 0 to |tokens|
      invariant Below(stack, i)
      invariant Scan(tokens, i, stack, found) == Scan(tokens, 0, [], map[])
    {
      match tokens[i]
      case Plain =>
      case Open(_) => stack := stack + [i];
      case Close(shape) =>
        if stack == [] {
          return Err(Unmatched(i));
        }
        var start := stack[|stack| - 1];
        stack := stack[..|stack| - 1];
        if tokens[start] != Open(shape) {
          return Err(Mismatched(i));
        }
        found := found[start := i];
        found := found[i := start];
    }
    if stack != [] {
      return Err(Unclosed);
    }
    r := Ok(found);
  }

  // ----- it accepts exactly the well-nested texts

  /** `f` is written from `i` on. */
  predicate At(tokens: seq<Token>, i: nat, f: Forest) {
    i + |Text(f)| <= |tokens| && tokens[i..i + |Text(f)|] == Text(f)
  }

  lemma {:induction false} AtGroup(tokens: seq<Token>, i: nat, shape: Shape, inside: Forest, rest: Forest)
    ensures At(tokens, i, Group(shape, inside, rest)) <==>
            var close := i + 1 + |Text(inside)|;
            i < |tokens| && tokens[i] == Open(shape) && At(tokens, i + 1, inside)
            && close < |tokens| && tokens[close] == Close(shape) && At(tokens, close + 1, rest)
  {
    var n, m := |Text(inside)|, |Text(rest)|;
    var close := i + 1 + n;
    if close + 1 + m <= |tokens| {
      SliceGroup(tokens, i, close, close + 1 + m);
      SplitText(tokens[i], tokens[i + 1..close], tokens[close], tokens[close + 1..close + 1 + m], Open(shape),
                Text(inside), Close(shape), Text(rest));
    }
  }

  lemma SliceGroup<T>(s: seq<T>, i: nat, close: nat, end: nat)
    requires i < close < end <= |s|
    ensures s[i..end] == [s[i]] + (s[i + 1..close] + ([s[close]] + s[close + 1..end]))
  {
    assert s[i..end] == [s[i]] + s[i + 1..end];
    assert s[i + 1..end] == s[i + 1..close] + s[close..end];
    assert s[close..end] == [s[close]] + s[close + 1..end];
  }

  lemma SplitText<T>(a: T, b: seq<T>, c: T, d: seq<T>, w: T, x: seq<T>, y: T, z: seq<T>)
    requires |b| == |x| && |d| == |z|
    ensures [a] + (b + ([c] + d)) == [w] + (x + ([y] + z)) <==> a == w && b == x && c == y && d == z
  {
    var s, t := [a] + (b + ([c] + d)), [w] + (x + ([y] + z));
    if s == t {
      assert s[0] == a && t[0] == w;
      assert s[1..] == b + ([c] + d) && t[1..] == x + ([y] + z);
      assert s[1..][..|b|] == b && t[1..][..|b|] == x;
      assert s[1..][|b|..] == [c] + d && t[1..][|b|..] == [y] + z;
      assert ([c] + d)[1..] == d && ([y] + z)[1..] == z && ([c] + d)[0] == c;
    }
  }

  lemma AtWord(tokens: seq<Token>, i: nat, rest: Forest)
    ensures At(tokens, i, Word(rest)) <==> i < |tokens| && tokens[i] == Plain && At(tokens, i + 1, rest)
  {
    var m := |Text(rest)|;
    if i + 1 + m <= |tokens| {
      assert tokens[i..i + 1 + m] == [tokens[i]] + tokens[i + 1..i + 1 + m];
      assert ([tokens[i]] + tokens[i + 1..i + 1 + m])[1..] == tokens[i + 1..i + 1 + m]
             && ([Plain] + Text(rest))[1..] == Text(rest);
    }
  }

  lemma OpenStep(tokens: seq<Token>, i: nat, stack: seq<nat>, found: map<nat, nat>)
    requires i < |tokens| && tokens[i].Open? && Below(stack, i)
    ensures Below(stack + [i], i + 1) && Scan(tokens, i, stack, found) == Scan(tokens, i + 1, stack + [i], found)
  {
  }

  lemma CloseStep(tokens: seq<Token>, i: nat, stack: seq<nat>, top: nat, found: map<nat, nat>)
    requires i < |tokens| && tokens[i].Close? && Below(stack, i) && top < i && tokens[top] == Open(tokens[i].shape)
    ensures Below(stack + [top], i) && Below(stack, i + 1)
    ensures Scan(tokens, i, stack + [top], found) == Scan(tokens, i + 1, stack, found[top := i][i := top])
  {
    assert (stack + [top])[..|stack|] == stack;
  }

  lemma GroupPartners(found: map<nat, nat>, inside: map<nat, nat>, rest: map<nat, nat>, at: nat, close: nat)
    requires forall i :: i in inside ==> at < i < close
    ensures (found + inside)[at := close][close := at] + rest == found + (map[at := close, close := at] + inside + rest)
  {
  }

  /** Scanning over well-nested text leaves the stack alone and finds the text's partners. */
  lemma {:induction false} ScansForest(tokens: seq<Token>, i: nat, f: Forest, stack: seq<nat>, found: map<nat, nat>)
    requires At(tokens, i, f) && Below(stack, i)
    ensures Scan(tokens, i, stack, found) == Scan(tokens, i + |Text(f)|, stack, found + Partners(f, i))
    decreases f, 1
  {
    match f
    case Empty =>
      assert found + map[] == found;
    case Word(rest) =>
      AtWord(tokens, i, rest);
      ScansForest(tokens, i + 1, rest, stack, found);
    case Group(shape, inside, rest) =>
      ScansGroup(tokens, i, shape, inside, rest, stack, found);
  }

  lemma {:induction false} ScansGroup(tokens: seq<Token>, i: nat, shape: Shape, inside: Forest, rest: Forest,
      stack: seq<nat>, found: map<nat, nat>)
    requires At(tokens, i, Group(shape, inside, rest)) && Below(stack, i)
    ensures var f := Group(shape, inside, rest);
            Scan(tokens, i, stack, found) == Scan(tokens, i + |Text(f)|, stack, found + Partners(f, i))
    decreases Group(shape, inside, rest), 0
  {
    AtGroup(tokens, i, shape, inside, rest);
    var close := i + 1 + |Text(inside)|;
    var within, after := Partners(inside, i + 1), Partners(rest, close + 1);
    ScansInside(tokens, i, close, inside, stack, found);
    var passed := (found + within)[i := close][close := i];
    ScansForest(tokens, close + 1, rest, stack, passed);
    PartnersWithin(inside, i + 1);
    GroupPartners(found, within, after, i, close);
  }

  lemma {:induction false} ScansInside(tokens: seq<Token>, i: nat, close: nat, inside: Forest, stack: seq<nat>,
      found: map<nat, nat>)
    requires Below(stack, i) && i < close < |tokens| && tokens[i].Open? && tokens[close] == Close(tokens[i].shape)
    requires At(tokens, i + 1, inside) && close == i + 1 + |Text(inside)|
    ensures Below(stack, close + 1)
    ensures Scan(tokens, i, stack, found)
            == Scan(tokens, close + 1, stack, (found + Partners(inside, i + 1))[i := close][close := i])
    decreases inside, 2
  {
    OpenStep(tokens, i, stack, found);
    ScansForest(tokens, i + 1, inside, stack + [i], found);
    CloseStep(tokens, close, stack, i, found + Partners(inside, i + 1));
  }

  lemma {:induction false} PartnersWithin(f: Forest, at: nat)
    ensures forall i :: i in Partners(f, at) ==> at <= i < at + |Text(f)|
    decreases f
  {
    match f
    case Empty =>
    case Word(rest) =>
      PartnersWithin(rest, at + 1);
    case Group(_, inside, rest) =>
      PartnersWithin(inside, at + 1);
      PartnersWithin(rest, at + 1 + |Text(inside)| + 1);
  }

  /** Text that no opener waits for ends here; text inside an opener ends at its closer. */
  predicate Ends(tokens: seq<Token>, end: nat, stack: seq<nat>)
    requires Below(stack, |tokens|)
  {
    if stack == [] then end == |tokens|
    else end < |tokens| && tokens[end].Close? && tokens[stack[|stack| - 1]] == Open(tokens[end].shape)
  }

  /** A scan that succeeds goes over well-nested text to the end, or to the closer of the opener
      waiting last. */
  lemma {:induction false} ScannedForest(tokens: seq<Token>, i: nat, stack: seq<nat>, found: map<nat, nat>)
      returns (f: Forest)
    requires i <= |tokens| && Below(stack, i) && Scan(tokens, i, stack, found).Ok?
    ensures At(tokens, i, f) && Ends(tokens, i + |Text(f)|, stack)
    decreases |tokens| - i, 1
  {
    if i == |tokens| {
      f := Empty;
    } else {
      match tokens[i]
      case Plain =>
        var rest := ScannedForest(tokens, i + 1, stack, found);
        f := Word(rest);
        AtWord(tokens, i, rest);
      case Close(_) =>
        f := Empty;
      case Open(_) =>
        f := ScannedGroup(tokens, i, stack, found);
    }
  }

  lemma {:induction false} ScannedGroup(tokens: seq<Token>, i: nat, stack: seq<nat>, found: map<nat, nat>)
      returns (f: Forest)
    requires i < |tokens| && tokens[i].Open? && Below(stack, i) && Scan(tokens, i, stack, found).Ok?
    ensures At(tokens, i, f) && Ends(tokens, i + |Text(f)|, stack)
    decreases |tokens| - i, 0
  {
    OpenStep(tokens, i, stack, found);
    var inside := ScannedForest(tokens, i + 1, stack + [i], found);
    var close := i + 1 + |Text(inside)|;
    ScansForest(tokens, i + 1, inside, stack + [i], found);
    var within := found + Partners(inside, i + 1);
    CloseStep(tokens, close, stack, i, within);
    var rest := ScannedForest(tokens, close + 1, stack, within[i := close][close := i]);
    f := Group(tokens[i].shape, inside, rest);
    AtGroup(tokens, i, tokens[i].shape, inside, rest);
  }

  ghost predicate WellNested(tokens: seq<Token>) {
    exists f: Forest :: Text(f) == tokens
  }

  lemma AcceptsForest(tokens: seq<Token>, f: Forest)
    requires Text(f) == tokens
    ensures Scan(tokens, 0, [], map[]) == Ok(Partners(f, 0))
    ensures Paired(tokens, Partners(f, 0), 0, |tokens|)
  {
    assert tokens[0..|tokens|] == tokens;
    ScansForest(tokens, 0, f, [], map[]);
    assert map[] + Partners(f, 0) == Partners(f, 0);
    PartnersPaired(tokens, 0, f, |tokens|);
  }

  /** The scan accepts exactly the well-nested texts. */
  lemma AcceptsExactly(tokens: seq<Token>)
    ensures Scan(tokens, 0, [], map[]).Ok? <==> WellNested(tokens)
  {
    if Scan(tokens, 0, [], map[]).Ok? {
      var f := ScannedForest(tokens, 0, [], map[]);
      assert tokens[0..|tokens|] == tokens;
    }
    if WellNested(tokens) {
      var f: Forest :| Text(f) == tokens;
      AcceptsForest(tokens, f);
    }
  }

  // ----- what the partners are

  predicate Partner(m: map<nat, nat>, i: nat, j: nat) {
    i in m && m[i] == j
  }

  /** Partners are each other's, and never their own. */
  ghost predicate Involution(m: map<nat, nat>) {
    forall i, j :: Partner(m, i, j) ==> Partner(m, j, i) && i != j
  }

  /** The span of `i` has the start of the span of `j` inside it, and not its end. */
  predicate Crosses(m: map<nat, nat>, i: nat, j: nat) {
    i in m && j in m && i < j < m[i] && j < m[j] && m[i] <= m[j]
  }

  ghost predicate Nested(m: map<nat, nat>) {
    forall i, j :: !Crosses(m, i, j)
  }

  /** Token `i` has a partner in the stretch exactly when it is a delimiter in it, and an opener's
      partner is the closer of its shape, after it. */
  predicate Facing(tokens: seq<Token>, m: map<nat, nat>, from: nat, to: nat, i: nat)
    requires from <= to <= |tokens|
  {
    if i in m then
      from <= i < to && from <= m[i] < to &&
      if i < m[i] then tokens[i].Open? && tokens[m[i]] == Close(tokens[i].shape) else tokens[i].Close?
    else from <= i < to ==> tokens[i] == Plain
  }

  ghost predicate Faces(tokens: seq<Token>, m: map<nat, nat>, from: nat, to: nat)
    requires from <= to <= |tokens|
  {
    forall i :: Facing(tokens, m, from, to, i)
  }

  /** A properly nested involution on the delimiters of a stretch of text. */
  ghost predicate Paired(tokens: seq<Token>, m: map<nat, nat>, from: nat, to: nat)
    requires from <= to <= |tokens|
  {
    Faces(tokens, m, from, to) && Involution(m) && Nested(m)
  }

  /** `m` is the pairs of two stretches. */
  ghost predicate Joins(m: map<nat, nat>, a: map<nat, nat>, b: map<nat, nat>, middle: nat) {
    && (forall k :: k in m <==> k in a || k in b)
    && (forall k :: k in a ==> m[k] == a[k] && k < middle && a[k] < middle)
    && (forall k :: k in b ==> m[k] == b[k] && k >= middle && b[k] >= middle)
  }

  lemma JoinPairs(m: map<nat, nat>, a: map<nat, nat>, b: map<nat, nat>, middle: nat)
    requires Joins(m, a, b, middle) && Involution(a) && Involution(b) && Nested(a) && Nested(b)
    ensures Involution(m) && Nested(m)
  {
    forall i, j | Partner(m, i, j)
      ensures Partner(m, j, i) && i != j
    {
      assert Partner(a, i, j) || Partner(b, i, j);
    }
    forall i: nat, j: nat
      ensures !Crosses(m, i, j)
    {
      assert !Crosses(a, i, j) && !Crosses(b, i, j);
    }
  }

  lemma JoinFaces(tokens: seq<Token>, m: map<nat, nat>, a: map<nat, nat>, b: map<nat, nat>, from: nat, middle: nat,
      to: nat)
    requires from <= middle <= to <= |tokens| && Faces(tokens, a, from, middle) && Faces(tokens, b, middle, to)
    requires Joins(m, a, b, middle)
    ensures Faces(tokens, m, from, to)
  {
    forall i: nat
      ensures Facing(tokens, m, from, to, i)
    {
      assert Facing(tokens, a, from, middle, i) && Facing(tokens, b, middle, to, i);
    }
  }

  /** `m` is the pairs `inside` and the pair around them. */
  ghost predicate Wraps(m: map<nat, nat>, inside: map<nat, nat>, at: nat, close: nat) {
    && (forall k :: k in m <==> k == at || k == close || k in inside)
    && at < close && m[at] == close && m[close] == at
    && (forall k :: k in inside ==> m[k] == inside[k] && at < k < close && at < inside[k] < close)
  }

  lemma WrapPairs(m: map<nat, nat>, inside: map<nat, nat>, at: nat, close: nat)
    requires Wraps(m, inside, at, close) && Involution(inside) && Nested(inside)
    ensures Involution(m) && Nested(m)
  {
    forall i, j | Partner(m, i, j)
      ensures Partner(m, j, i) && i != j
    {
      assert Partner(inside, i, j) || i == at || i == close;
    }
    forall i: nat, j: nat
      ensures !Crosses(m, i, j)
    {
      assert !Crosses(inside, i, j);
    }
  }

  lemma WrapFaces(tokens: seq<Token>, m: map<nat, nat>, inside: map<nat, nat>, at: nat, close: nat, to: nat)
    requires at < close < to <= |tokens| && to == close + 1 && Faces(tokens, inside, at + 1, close)
             && Wraps(m, inside, at, close)
    requires tokens[at].Open? && tokens[close] == Close(tokens[at].shape)
    ensures Faces(tokens, m, at, to)
  {
    forall i: nat
      ensures Facing(tokens, m, at, to, i)
    {
      assert Facing(tokens, inside, at + 1, close, i);
    }
  }

  lemma PairedGroup(tokens: seq<Token>, at: nat, close: nat, to: nat, inside: map<nat, nat>, rest: map<nat, nat>,
      m: map<nat, nat>)
    requires at < close < to <= |tokens| && tokens[at].Open? && tokens[close] == Close(tokens[at].shape)
    requires Paired(tokens, inside, at + 1, close) && Paired(tokens, rest, close + 1, to)
    requires m == map[at := close, close := at] + inside + rest
    ensures Paired(tokens, m, at, to)
  {
    var wrapped := map[at := close, close := at] + inside;
    forall k | k in inside
      ensures at < k < close && at < inside[k] < close
    {
      assert Facing(tokens, inside, at + 1, close, k);
    }
    WrapPairs(wrapped, inside, at, close);
    WrapFaces(tokens, wrapped, inside, at, close, close + 1);
    PairedJoin(tokens, wrapped, rest, at, close + 1, to);
  }

  lemma PairedJoin(tokens: seq<Token>, a: map<nat, nat>, b: map<nat, nat>, from: nat, middle: nat, to: nat)
    requires from <= middle <= to <= |tokens| && Paired(tokens, a, from, middle) && Paired(tokens, b, middle, to)
    ensures Paired(tokens, a + b, from, to)
  {
    forall k: nat | k in a
      ensures k < middle && a[k] < middle
    {
      assert Facing(tokens, a, from, middle, k);
    }
    forall k: nat | k in b
      ensures k >= middle && b[k] >= middle
    {
      assert Facing(tokens, b, middle, to, k);
    }
    JoinPairs(a + b, a, b, middle);
    JoinFaces(tokens, a + b, a, b, from, middle, to);
  }

  lemma PairedWord(tokens: seq<Token>, m: map<nat, nat>, at: nat, to: nat)
    requires at < to <= |tokens| && tokens[at] == Plain && Paired(tokens, m, at + 1, to)
    ensures Paired(tokens, m, at, to)
  {
    forall i: nat
      ensures Facing(tokens, m, at, to, i)
    {
      assert Facing(tokens, m, at + 1, to, i);
    }
  }

  lemma GroupSize(shape: Shape, inside: Forest, rest: Forest)
    ensures |Text(Group(shape, inside, rest))| == |Text(inside)| + |Text(rest)| + 2
  {
  }

  /** The pairs a scan finds are a properly nested involution on the text's delimiters, each facing
      its partner with its own shape. */
  lemma {:induction false} PartnersPaired(tokens: seq<Token>, i: nat, f: Forest, to: nat)
    requires At(tokens, i, f) && to == i + |Text(f)|
    ensures Paired(tokens, Partners(f, i), i, to)
    decreases f, 1
  {
    match f
    case Empty =>
    case Word(rest) =>
      AtWord(tokens, i, rest);
      PartnersPaired(tokens, i + 1, rest, to);
      PairedWord(tokens, Partners(rest, i + 1), i, to);
    case Group(shape, inside, rest) =>
      AtGroup(tokens, i, shape, inside, rest);
      GroupSize(shape, inside, rest);
      PartnersPairedGroup(tokens, i, i + 1 + |Text(inside)|, to, shape, inside, rest);
  }

  lemma {:induction false} PartnersPairedGroup(tokens: seq<Token>, i: nat, close: nat, to: nat, shape: Shape,
      inside: Forest, rest: Forest)
    requires i < close < to <= |tokens| && tokens[i] == Open(shape) && tokens[close] == Close(shape)
    requires At(tokens, i + 1, inside) && close == i + 1 + |Text(inside)|
    requires At(tokens, close + 1, rest) && to == close + 1 + |Text(rest)|
    ensures Paired(tokens, Partners(Group(shape, inside, rest), i), i, to)
    decreases Group(shape, inside, rest), 0
  {
    PartnersPaired(tokens, i + 1, inside, close);
    PartnersPaired(tokens, close + 1, rest, to);
    PartnersOfGroup(i, close, shape, inside, rest);
    PairedGroup(tokens, i, close, to, Partners(inside, i + 1), Partners(rest, close + 1),
                Partners(Group(shape, inside, rest), i));
  }

  lemma PartnersOfGroup(i: nat, close: nat, shape: Shape, inside: Forest, rest: Forest)
    requires close == i + 1 + |Text(inside)|
    ensures Partners(Group(shape, inside, rest), i) == map[i := close, close := i] + Partners(inside, i + 1)
            + Partners(rest, close + 1)
  {
  }
}
