/** scripts/rust_test_reachability.py: which cfg predicates are proved, and with what truth value. */
module CfgPredicate {
  import opened Common
  import opened Results

  datatype Token = Test | All | Any | Not | Open | Close | Comma | Other

  // ----- the predicates that can be proved

  /** A predicate over `test` and how it is written: `trailing` tells a comma after the last argument. */
  datatype Tree =
    | Testing
    | Every(arguments: Arguments, trailing: bool)
    | Either(arguments: Arguments, trailing: bool)
    | Negated(argument: Tree, trailing: bool)

  datatype Arguments = Nil | Cons(head: Tree, tail: Arguments)

  function Render(t: Tree): (ts: seq<Token>)
    ensures |ts| > 0 && ts[0] != Close
  {
    match t
    case Testing => [Test]
    case Every(arguments, trailing) => [All, Open] + (RenderAll(arguments, trailing) + [Close])
    case Either(arguments, trailing) => [Any, Open] + (RenderAll(arguments, trailing) + [Close])
    case Negated(argument, trailing) => [Not, Open] + (Render(argument) + EndComma(trailing) + [Close])
  }

  function EndComma(trailing: bool): seq<Token> {
    if trailing then [Comma] else []
  }

  function RenderAll(a: Arguments, trailing: bool): seq<Token> {
    match a
    case Nil => []
    case Cons(head, tail) =>
      if tail.Nil? then Render(head) + EndComma(trailing) else Render(head) + ([Comma] + RenderAll(tail, trailing))
  }

  function Value(t: Tree): bool {
    match t
    case Testing => true
    case Every(arguments, _) => AllOf(Values(arguments))
    case Either(arguments, _) => AnyOf(Values(arguments))
    case Negated(argument, _) => !Value(argument)
  }

  function Values(a: Arguments): seq<bool> {
    match a
    case Nil => []
    case Cons(head, tail) => [Value(head)] + Values(tail)
  }

  predicate AllOf(values: seq<bool>) {
    forall i :: 0 <= i < |values| ==> values[i]
  }

  predicate AnyOf(values: seq<bool>) {
    exists i :: 0 <= i < |values| && values[i]
  }

  /** How predicates are written: a name, its arguments in parentheses with commas between, and perhaps a
      comma after the last. */
  lemma Spelled(last: bool)
    ensures Render(Testing) == [Test]
    ensures Render(Every(Nil, last)) == [All, Open, Close] && Render(Either(Nil, last)) == [Any, Open, Close]
    ensures Render(Negated(Testing, false)) == [Not, Open, Test, Close]
    ensures Render(Negated(Testing, true)) == [Not, Open, Test, Comma, Close]
    ensures var two := Cons(Testing, Cons(Testing, Nil));
            && Render(Every(two, false)) == [All, Open, Test, Comma, Test, Close]
            && Render(Either(two, true)) == [Any, Open, Test, Comma, Test, Comma, Close]
  {
    var one := Cons(Testing, Nil);
    assert RenderAll(one, false) == [Test] && RenderAll(one, true) == [Test, Comma];
  }

  predicate IsArgument(t: Tree, a: Arguments) {
    match a
    case Nil => false
    case Cons(head, tail) => t == head || IsArgument(t, tail)
  }

  lemma OneMoreValue(value: bool, rest: seq<bool>)
    ensures AllOf([value] + rest) <==> value && AllOf(rest)
    ensures AnyOf([value] + rest) <==> value || AnyOf(rest)
  {
    var values := [value] + rest;
    assert values[0] == value && forall i :: 0 <= i < |rest| ==> values[i + 1] == rest[i];
    if AllOf(values) {
      forall i | 0 <= i < |rest|
        ensures rest[i]
      {
        assert values[i + 1];
      }
    }
    if i :| 0 <= i < |rest| && rest[i] {
      assert values[i + 1];
    }
  }

  lemma {:induction false} ValuesAre(a: Arguments)
    ensures AllOf(Values(a)) <==> forall t :: IsArgument(t, a) ==> Value(t)
    ensures AnyOf(Values(a)) <==> exists t :: IsArgument(t, a) && Value(t)
  {
    match a
    case Nil =>
    case Cons(head, tail) =>
      ValuesAre(tail);
      OneMoreValue(Value(head), Values(tail));
      assert Values(a) == [Value(head)] + Values(tail) && IsArgument(head, a);
      if forall t :: IsArgument(t, a) ==> Value(t) {
        forall t | IsArgument(t, tail)
          ensures Value(t)
        {
          assert IsArgument(t, a);
        }
      }
      if t :| IsArgument(t, tail) && Value(t) {
        assert IsArgument(t, a);
      }
  }

  /** What a predicate says of a test build: `test` holds, `all` when every argument does, `any` when one
      does, and `not` when its argument does not. */
  lemma ValueMeans(arguments: Arguments, argument: Tree, trailing: bool)
    ensures Value(Testing)
    ensures Value(Every(arguments, trailing)) <==> forall t :: IsArgument(t, arguments) ==> Value(t)
    ensures Value(Either(arguments, trailing)) <==> exists t :: IsArgument(t, arguments) && Value(t)
    ensures Value(Negated(argument, trailing)) <==> !Value(argument)
  {
    ValuesAre(arguments);
  }

  // ----- the parser

  /** `parse`: the value of the predicate `ts` starts with, and what follows it. */
  function Parse(ts: seq<Token>): (r: Option<(bool, seq<Token>)>)
    ensures r.Some? ==> |r.value.1| < |ts|
    decreases |ts|, 1
  {
    if ts == [] then None
    else if ts[0] == Test then Some((true, ts[1..]))
    else if (ts[0] != All && ts[0] != Any && ts[0] != Not) || |ts| < 2 || ts[1] != Open then None
    else
      match ParseAll(ts[2..])
      case None => None
      case Some((values, rest)) =>
        match Combine(ts[0], values)
        case None => None
        case Some(value) => Some((value, rest))
  }

  function Combine(name: Token, values: seq<bool>): Option<bool> {
    if name == Not then (if |values| != 1 then None else Some(!values[0]))
    else Some(if name == All then AllOf(values) else AnyOf(values))
  }

  /** The loop over arguments, to the closing parenthesis. */
  function ParseAll(ts: seq<Token>): (r: Option<(seq<bool>, seq<Token>)>)
    ensures r.Some? ==> |r.value.1| < |ts|
    decreases |ts|, 2
  {
    if ts == [] then None
    else if ts[0] == Close then Some(([], ts[1..]))
    else
      match Parse(ts)
      case None => None
      case Some((value, rest)) =>
        if rest == [] then None
        else if rest[0] == Comma then Before(value, ParseAll(rest[1..]))
        else if rest[0] == Close then Before(value, Some(([], rest[1..])))
        else None
  }

  function Before(value: bool, r: Option<(seq<bool>, seq<Token>)>): Option<(seq<bool>, seq<Token>)> {
    match r
    case None => None
    case Some((values, rest)) => Some(([value] + values, rest))
  }

  function After(values: seq<bool>, r: Option<(seq<bool>, seq<Token>)>): Option<(seq<bool>, seq<Token>)> {
    match r
    case None => None
    case Some((more, rest)) => Some((values + more, rest))
  }

  /** `cfg_enabled`, of a predicate's tokens. */
  function CfgEnabled(ts: seq<Token>): Option<bool> {
    match Parse(ts)
    case None => None
    case Some((value, rest)) => if rest == [] then Some(value) else None
  }

  // ----- it proves exactly the written trees

  /** Parsing a written tree gives its value, whatever follows. */
  lemma {:induction false} ParsesTree(t: Tree, rest: seq<Token>)
    ensures Parse(Render(t) + rest) == Some((Value(t), rest))
    decreases t
  {
    match t
    case Testing =>
    case Every(arguments, trailing) =>
      ParsesAll(arguments, trailing, rest);
      ParsesCall(All, RenderAll(arguments, trailing) + [Close], rest);
    case Either(arguments, trailing) =>
      ParsesAll(arguments, trailing, rest);
      ParsesCall(Any, RenderAll(arguments, trailing) + [Close], rest);
    case Negated(argument, trailing) =>
      ParsesTree(argument, EndComma(trailing) + ([Close] + rest));
      ParsesOne(argument, trailing, rest);
      ParsesCall(Not, Render(argument) + EndComma(trailing) + [Close], rest);
  }

  lemma ParsesCall(name: Token, inside: seq<Token>, rest: seq<Token>)
    requires name == All || name == Any || name == Not
    ensures Parse([name, Open] + inside + rest)
         == match ParseAll(inside + rest)
            case None => None
            case Some((values, left)) =>
              var value := Combine(name, values); if value.None? then None else Some((value.value, left))
  {
    var ts := [name, Open] + inside + rest;
    assert ts[2..] == inside + rest && ts[0] == name && ts[1] == Open;
  }

  lemma {:induction false} ParsesOne(argument: Tree, trailing: bool, rest: seq<Token>)
    requires Parse(Render(argument) + (EndComma(trailing) + ([Close] + rest)))
          == Some((Value(argument), EndComma(trailing) + ([Close] + rest)))
    ensures ParseAll(RenderAll(Cons(argument, Nil), trailing) + [Close] + rest) == Some(([Value(argument)], rest))
  {
    var after := EndComma(trailing) + ([Close] + rest);
    var ts := RenderAll(Cons(argument, Nil), trailing) + [Close] + rest;
    assert ts == Render(argument) + after;
    if trailing {
      assert after[1..] == [Close] + rest && ([Close] + rest)[1..] == rest;
    } else {
      assert after == [Close] + rest && after[1..] == rest;
    }
    assert [Value(argument)] + [] == [Value(argument)];
  }

  lemma {:induction false} ParsesAll(a: Arguments, trailing: bool, rest: seq<Token>)
    ensures ParseAll(RenderAll(a, trailing) + [Close] + rest) == Some((Values(a), rest))
    decreases a
  {
    match a
    case Nil =>
      assert RenderAll(a, trailing) + [Close] + rest == [Close] + rest;
    case Cons(head, tail) =>
      if tail.Nil? {
        ParsesTree(head, EndComma(trailing) + ([Close] + rest));
        ParsesOne(head, trailing, rest);
        assert Values(a) == [Value(head)];
      } else {
        var next := RenderAll(tail, trailing) + [Close] + rest;
        ParsesTree(head, [Comma] + next);
        ParsesAll(tail, trailing, rest);
        assert RenderAll(a, trailing) + [Close] + rest == Render(head) + ([Comma] + next);
        assert ([Comma] + next)[1..] == next;
      }
  }

  /** Whatever the parser takes is a written tree, and its value is the tree's. */
  lemma {:induction false} ParsedTree(ts: seq<Token>) returns (t: Tree)
    requires Parse(ts).Some?
    ensures ts == Render(t) + Parse(ts).value.1 && Value(t) == Parse(ts).value.0
    decreases |ts|, 1
  {
    if ts[0] == Test {
      t := Testing;
    } else {
      var arguments, trailing := ParsedAll(ts[2..]);
      var rest := Parse(ts).value.1;
      assert ts == [ts[0], Open] + ts[2..];
      match ts[0] {
        case All => t := Every(arguments, trailing);
        case Any => t := Either(arguments, trailing);
        case Not =>
          assert |Values(arguments)| == 1;
          assert arguments.Cons? && arguments.tail.Nil?;
          t := Negated(arguments.head, trailing);
      }
      assert Render(t) == [ts[0], Open] + (RenderAll(arguments, trailing) + [Close]);
      Associate([ts[0], Open], RenderAll(arguments, trailing) + [Close], rest);
    }
  }

  lemma {:induction false} ParsedAll(ts: seq<Token>) returns (a: Arguments, trailing: bool)
    requires ParseAll(ts).Some?
    ensures ts == RenderAll(a, trailing) + [Close] + ParseAll(ts).value.1 && Values(a) == ParseAll(ts).value.0
    decreases |ts|, 2
  {
    if ts[0] == Close {
      a, trailing := Nil, false;
      assert ts == [Close] + ts[1..];
    } else {
      var head := ParsedTree(ts);
      var after := Parse(ts).value.1;
      if after[0] == Close {
        a, trailing := Cons(head, Nil), false;
        assert after == [Close] + after[1..];
      } else {
        var tail, more := ParsedAll(after[1..]);
        a, trailing := Cons(head, tail), tail.Nil? || more;
        LastComma(tail, more);
        RejoinAll(ts, Render(head), after, RenderAll(tail, more), ParseAll(ts).value.1);
      }
    }
  }

  /** After the last argument's comma there are no more to write. */
  lemma LastComma(tail: Arguments, more: bool)
    ensures tail.Cons? ==> RenderAll(tail, tail.Nil? || more) == RenderAll(tail, more)
  {
  }

  lemma RejoinAll(ts: seq<Token>, head: seq<Token>, after: seq<Token>, tail: seq<Token>, rest: seq<Token>)
    requires ts == head + after && after != [] && after[0] == Comma && after[1..] == tail + [Close] + rest
    ensures ts == head + ([Comma] + tail) + [Close] + rest
  {
    assert after == [Comma] + after[1..];
  }

  /** `ts` is how some tree of this value is written. */
  ghost predicate Written(ts: seq<Token>, value: bool) {
    exists t: Tree :: Render(t) == ts && Value(t) == value
  }

  /** A truth value is proved exactly for the tokens of a written tree, and it is that tree's. */
  lemma ProvesExactlyTrees(ts: seq<Token>, value: bool)
    ensures CfgEnabled(ts) == Some(value) <==> Written(ts, value)
  {
    if CfgEnabled(ts) == Some(value) {
      var t := ParsedTree(ts);
      assert Render(t) + [] == Render(t);
    }
    if Written(ts, value) {
      var t: Tree :| Render(t) == ts && Value(t) == value;
      ParsesTree(t, []);
      assert Render(t) + [] == ts;
    }
  }

  // ----- `cfg_enabled` with its shared position

  class Parser {
    const tokens: seq<Token>
    var position: nat

    constructor (tokens: seq<Token>)
      ensures this.tokens == tokens && position == 0
    {
      this.tokens, position := tokens, 0;
    }

    /** `parse` */
    method Predicate() returns (r: Option<bool>)
      requires position <= |tokens|
      modifies this
      ensures position <= |tokens|
      ensures match Parse(old(tokens[position..]))
              case None => r.None?
              case Some((value, rest)) => r == Some(value) && tokens[position..] == rest && position > old(position)
      decreases |tokens| - position, 0
    {
      ghost var start := tokens[position..];
      if position >= |tokens| {
        return None;
      }
      var name := tokens[position];
      position := position + 1;
      if name == Test {
        return Some(true);
      }
      if (name != All && name != Any && name != Not) || position >= |tokens| || tokens[position] != Open {
        return None;
      }
      position := position + 1;
      assert tokens[position..] == start[2..];
      var values := Predicates();
      if values.None? {
        return None;
      }
      r := Combine(name, values.value);
    }

    /** The loop of `parse`, to the closing parenthesis. */
    method Predicates() returns (r: Option<seq<bool>>)
      requires position <= |tokens|
      modifies this
      ensures position <= |tokens|
      ensures match ParseAll(old(tokens[position..]))
              case None => r.None?
              case Some((values, rest)) => r == Some(values) && tokens[position..] == rest && position > old(position)
      decreases |tokens| - position, 1
    {
      var values := [];
      ghost var first, inside := position, ParseAll(tokens[position..]);
      AfterNone(inside);
      while position < |tokens| && tokens[position] != Close
        invariant first <= position <= |tokens|
        invariant inside == After(values, ParseAll(tokens[position..]))
        decreases |tokens| - position
      {
        ghost var before, here := values, tokens[position..];
        var value := Predicate();
        if value.None? {
          return None;
        }
        values := values + [value.value];
        ghost var after := tokens[position..];
        if position < |tokens| && tokens[position] == Comma {
          position := position + 1;
          assert tokens[position..] == after[1..];
          AfterBefore(before, value.value, ParseAll(after[1..]));
        } else if position >= |tokens| || tokens[position] != Close {
          return None;
        } else {
          AfterBefore(before, value.value, ParseAll(after));
        }
      }
      if position >= |tokens| {
        return None;
      }
      assert tokens[position..][1..] == tokens[position + 1..];
      assert values + [] == values;
      position := position + 1;
      r := Some(values);
    }
  }

  lemma AfterNone(r: Option<(seq<bool>, seq<Token>)>)
    ensures After([], r) == r
  {
    if r.Some? {
      assert [] + r.value.0 == r.value.0;
    }
  }

  lemma AfterBefore(values: seq<bool>, value: bool, r: Option<(seq<bool>, seq<Token>)>)
    ensures After(values, Before(value, r)) == After(values + [value], r)
  {
    if r.Some? {
      assert values + ([value] + r.value.0) == values + [value] + r.value.0;
    }
  }

  method Enabled(tokens: seq<Token>) returns (r: Option<bool>)
    ensures forall value :: r == Some(value) <==> Written(tokens, value)
  {
    var parser := new Parser(tokens);
    assert tokens[0..] == tokens;
    var value := parser.Predicate();
    r := if value.Some? && parser.position == |tokens| then value else None;
    ProvesExactlyTrees(tokens, true);
    ProvesExactlyTrees(tokens, false);
  }
}
