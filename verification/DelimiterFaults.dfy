/** scripts/check_prism_pool_acquires.py: which of the three refusals of the delimiter scan a text gets,
    and at which token. */
module DelimiterFaults {
  import opened Results
  import opened Delimiters

  datatype Standing = Standing(stack: seq<nat>, found: map<nat, nat>)

  /** Where the scan stands after the first `i` tokens; None when it refused one of them. */
  function StandingAt(tokens: seq<Token>, i: nat): (s: Option<Standing>)
    requires i <= |tokens|
    ensures s.Some? ==> Below(s.value.stack, i)
  {
    if i == 0 then Some(Standing([], map[]))
    else
      match StandingAt(tokens, i - 1)
      case None => None
      case Some(s) => Stepped(tokens, i - 1, s)
  }

  function Stepped(tokens: seq<Token>, i: nat, s: Standing): (t: Option<Standing>)
    requires i < |tokens| && Below(s.stack, i)
    ensures t.Some? ==> Below(t.value.stack, i + 1)
  {
    match tokens[i]
    case Plain => Some(s)
    case Open(_) => Some(Standing(s.stack + [i], s.found))
    case Close(shape) =>
      if s.stack == [] then None
      else
        var start := s.stack[|s.stack| - 1];
        if tokens[start] != Open(shape) then None
        else Some(Standing(s.stack[..|s.stack| - 1], s.found[start := i][i := start]))
  }

  lemma {:induction false} StandingScan(tokens: seq<Token>, i: nat)
    requires i <= |tokens| && StandingAt(tokens, i).Some?
    ensures var s := StandingAt(tokens, i).value;
            Scan(tokens, 0, [], map[]) == Scan(tokens, i, s.stack, s.found)
  {
    if i > 0 {
      StandingScan(tokens, i - 1);
    }
  }

  lemma {:induction false} StandingSame(a: seq<Token>, b: seq<Token>, i: nat)
    requires i <= |a| && i <= |b| && a[..i] == b[..i]
    ensures StandingAt(a, i) == StandingAt(b, i)
  {
    if i > 0 {
      var before := i - 1;
      assert a[..before] == a[..i][..before] && b[..before] == b[..i][..before];
      StandingSame(a, b, before);
      assert forall k :: 0 <= k < i ==> a[k] == a[..i][k] && b[k] == b[..i][k];
    }
  }

  /** More tokens can make it well-nested. */
  ghost predicate CanEnd(tokens: seq<Token>) {
    exists more :: EndsWith(tokens, more)
  }

  ghost predicate EndsWith(tokens: seq<Token>, more: seq<Token>) {
    WellNested(tokens + more)
  }

  ghost predicate Opens(tokens: seq<Token>, stack: seq<nat>) {
    forall k :: 0 <= k < |stack| ==> stack[k] < |tokens| && tokens[stack[k]].Open?
  }

  /** The closers that the openers in the stack wait for, the last opener's first. */
  ghost function Closers(tokens: seq<Token>, stack: seq<nat>): seq<Token>
    requires Opens(tokens, stack)
  {
    if stack == [] then []
    else
      var n := |stack| - 1;
      [Close(tokens[stack[n]].shape)] + Closers(tokens, stack[..n])
  }

  lemma {:induction false} StandingOpens(tokens: seq<Token>, i: nat)
    requires i <= |tokens| && StandingAt(tokens, i).Some?
    ensures Opens(tokens, StandingAt(tokens, i).value.stack)
  {
    if i > 0 {
      StandingOpens(tokens, i - 1);
    }
  }

  /** The scan accepts those closers, one after another. */
  lemma {:induction false} ClosersScan(tokens: seq<Token>, i: nat, stack: seq<nat>, found: map<nat, nat>)
    requires i <= |tokens| && Below(stack, i) && Opens(tokens, stack) && tokens[i..] == Closers(tokens, stack)
    ensures Scan(tokens, i, stack, found).Ok?
    decreases |stack|
  {
    if stack != [] {
      var n := |stack| - 1;
      assert tokens[i] == tokens[i..][0] && tokens[i + 1..] == tokens[i..][1..];
      ClosersScan(tokens, i + 1, stack[..n], found[stack[n] := i][i := stack[n]]);
    }
  }

  lemma {:induction false} ClosersSame(a: seq<Token>, b: seq<Token>, stack: seq<nat>)
    requires Opens(a, stack) && Opens(b, stack) && forall k :: 0 <= k < |stack| ==> a[stack[k]] == b[stack[k]]
    ensures Closers(a, stack) == Closers(b, stack)
  {
    if stack != [] {
      ClosersSame(a, b, stack[..|stack| - 1]);
    }
  }

  /** What the scan has not refused can still be ended, and is well-nested when nothing waits. */
  lemma StandingCanEnd(tokens: seq<Token>)
    requires StandingAt(tokens, |tokens|).Some?
    ensures CanEnd(tokens)
    ensures WellNested(tokens) <==> StandingAt(tokens, |tokens|).value.stack == []
  {
    var n := |tokens|;
    var s := StandingAt(tokens, n).value;
    StandingScan(tokens, n);
    AcceptsExactly(tokens);
    StandingOpens(tokens, n);
    var more := Closers(tokens, s.stack);
    var all := tokens + more;
    assert all[..n] == tokens[..n] && all[n..] == more;
    StandingSame(all, tokens, n);
    StandingScan(all, n);
    ClosersSame(all, tokens, s.stack);
    ClosersScan(all, n, s.stack, s.found);
    AcceptsExactly(all);
    assert EndsWith(tokens, more);
  }

  /** What it has refused cannot. */
  lemma RefusedCannotEnd(tokens: seq<Token>, i: nat)
    requires i < |tokens| && StandingAt(tokens, i).Some? && StandingAt(tokens, i + 1).None?
    ensures Scan(tokens, 0, [], map[]) == if StandingAt(tokens, i).value.stack == [] then Err(Unmatched(i))
                                          else Err(Mismatched(i))
  {
    StandingScan(tokens, i);
  }

  lemma NoneAfter(tokens: seq<Token>, i: nat)
    requires i < |tokens| && StandingAt(tokens, i).Some? && StandingAt(tokens, i + 1).None?
    ensures !CanEnd(tokens[..i + 1])
  {
    var start := tokens[..i + 1];
    forall more
      ensures !EndsWith(start, more)
    {
      var all := start + more;
      assert all[..i] == tokens[..i] && all[..i + 1] == tokens[..i + 1];
      StandingSame(all, tokens, i);
      StandingSame(all, tokens, i + 1);
      RefusedCannotEnd(all, i);
      AcceptsExactly(all);
    }
  }

  /** Whether the `i`-th token is the first that no more text can make good. */
  ghost predicate Spoils(tokens: seq<Token>, i: nat) {
    i < |tokens| && CanEnd(tokens[..i]) && !CanEnd(tokens[..i + 1])
  }

  lemma {:induction false} FirstRefused(tokens: seq<Token>, n: nat) returns (i: nat)
    requires n <= |tokens| && StandingAt(tokens, n).None?
    ensures i < n && StandingAt(tokens, i).Some? && StandingAt(tokens, i + 1).None?
  {
    i := n - 1;
    if StandingAt(tokens, i).None? {
      i := FirstRefused(tokens, i);
    }
  }

  lemma {:induction false} Earlier(tokens: seq<Token>, i: nat, n: nat)
    requires i <= n <= |tokens| && StandingAt(tokens, n).Some?
    ensures StandingAt(tokens, i).Some?
  {
    if i < n {
      Earlier(tokens, i, n - 1);
    }
  }

  lemma SpoilsExactly(tokens: seq<Token>, i: nat)
    requires i < |tokens|
    ensures Spoils(tokens, i) <==> StandingAt(tokens, i).Some? && StandingAt(tokens, i + 1).None?
  {
    CanEndExactly(tokens, i);
    CanEndExactly(tokens, i + 1);
  }

  lemma LongerCannotEnd(tokens: seq<Token>, k: nat, i: nat)
    requires k <= i <= |tokens| && !CanEnd(tokens[..k])
    ensures !CanEnd(tokens[..i])
  {
    forall more
      ensures !EndsWith(tokens[..i], more)
    {
      var rest := tokens[k..i] + more;
      assert tokens[..i] + more == tokens[..k] + rest;
      assert !EndsWith(tokens[..k], rest);
    }
  }

  lemma CanEndExactly(tokens: seq<Token>, i: nat)
    requires i <= |tokens|
    ensures CanEnd(tokens[..i]) <==> StandingAt(tokens, i).Some?
    ensures CanEnd(tokens[..i]) ==> (WellNested(tokens[..i]) <==> StandingAt(tokens, i).value.stack == [])
  {
    var start := tokens[..i];
    assert start[..i] == tokens[..i];
    StandingSame(start, tokens, i);
    if StandingAt(tokens, i).Some? {
      StandingCanEnd(start);
    } else {
      var k := FirstRefused(tokens, i);
      NoneAfter(tokens, k);
      LongerCannotEnd(tokens, k + 1, i);
    }
  }

  /** The three refusals: a text that more could still end is unclosed; otherwise the first token that nothing
      can make good is unmatched when the text before it is well-nested, and mismatched when it is not. */
  lemma RefusedExactly(tokens: seq<Token>, i: nat)
    ensures var r := Scan(tokens, 0, [], map[]);
            && (r == Err(Unclosed) <==> CanEnd(tokens) && !WellNested(tokens))
            && (r == Err(Unmatched(i)) <==> Spoils(tokens, i) && WellNested(tokens[..i]))
            && (r == Err(Mismatched(i)) <==> Spoils(tokens, i) && !WellNested(tokens[..i]))
  {
    var n := |tokens|;
    assert tokens[..n] == tokens;
    CanEndExactly(tokens, n);
    if i < n {
      SpoilsExactly(tokens, i);
      CanEndExactly(tokens, i);
    }
    if StandingAt(tokens, n).Some? {
      StandingScan(tokens, n);
      if i < n {
        Earlier(tokens, i + 1, n);
      }
    } else {
      var k := FirstRefused(tokens, n);
      RefusedCannotEnd(tokens, k);
      if i < k {
        Earlier(tokens, i + 1, k);
      } else if k < i < n && StandingAt(tokens, i).Some? {
        Earlier(tokens, k + 1, i);
      }
    }
  }
}
