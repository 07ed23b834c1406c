/** backend/router.py: rewriting a byte stream line by line, however the network cuts it. `rewrite` is
    None where rewriting a line raises out of the loop, which ends the connection. */
module Router {
  import opened Common
  import opened Results
  import opened Sorting

  type Rewrite<!B> = seq<B> -> Option<seq<B>>

  /** The first line's length, or the whole length when no newline is there. */
  function LineEnd<B(==)>(newline: B, s: seq<B>): (n: nat)
    ensures n <= |s|
    ensures forall i :: 0 <= i < n ==> s[i] != newline
    ensures n < |s| ==> s[n] == newline
  {
    if s == [] || s[0] == newline then 0 else 1 + LineEnd(newline, s[1..])
  }

  /** Both in turn, unless one raises. */
  function Then<B>(a: Option<seq<B>>, b: Option<seq<B>>): Option<seq<B>> {
    if a.None? || b.None? then None else Some(a.value + b.value)
  }

  function Line<B>(newline: B, rewrite: Rewrite<B>, line: seq<B>): Option<seq<B>> {
    Then(rewrite(line), Some([newline]))
  }

  /** The complete lines of `s`, each rewritten and ended by a newline; None when one of them raises. */
  function Rewritten<B(==)>(newline: B, rewrite: Rewrite<B>, s: seq<B>): Option<seq<B>>
    decreases |s|
  {
    var n := LineEnd(newline, s);
    if n == |s| then Some([]) else Then(Line(newline, rewrite, s[..n]), Rewritten(newline, rewrite, s[n + 1..]))
  }

  /** What follows the last newline. */
  function Tail<B(==)>(newline: B, s: seq<B>): (r: seq<B>)
    ensures newline !in r && |r| <= |s|
    decreases |s|
  {
    var n := LineEnd(newline, s);
    if n == |s| then s else Tail(newline, s[n + 1..])
  }

  lemma {:induction false} LineEndIs<B>(newline: B, s: seq<B>, n: nat)
    requires n <= |s| && (forall i :: 0 <= i < n ==> s[i] != newline) && (n < |s| ==> s[n] == newline)
    ensures LineEnd(newline, s) == n
  {
    var m := LineEnd(newline, s);
    if n > 0 {
      LineEndIs(newline, s[1..], n - 1);
    }
  }

  lemma ThenThen<B>(a: Option<seq<B>>, b: Option<seq<B>>, c: Option<seq<B>>)
    ensures Then(a, Then(b, c)) == Then(Then(a, b), c)
    ensures Then(Some([]), a) == a
    ensures Then(a, Some([])) == a
  {
    if a.Some? && b.Some? && c.Some? {
      Associate(a.value, b.value, c.value);
    }
    if a.Some? {
      assert [] + a.value == a.value && a.value + [] == a.value;
    }
  }

  /** More bytes after `a`: its complete lines stand, and its tail goes before them. */
  lemma {:induction false} Appended<B>(newline: B, rewrite: Rewrite<B>, a: seq<B>, b: seq<B>)
    ensures Rewritten(newline, rewrite, a + b)
            == Then(Rewritten(newline, rewrite, a), Rewritten(newline, rewrite, Tail(newline, a) + b))
    ensures Tail(newline, a + b) == Tail(newline, Tail(newline, a) + b)
    decreases |a|
  {
    var n := LineEnd(newline, a);
    if n < |a| {
      FirstLine(newline, a, b, n);
      var first, rest := Line(newline, rewrite, a[..n]), a[n + 1..];
      LineStep(newline, rewrite, a, n, rest);
      LineStep(newline, rewrite, a + b, n, rest + b);
      Appended(newline, rewrite, rest, b);
      ThenThen(first, Rewritten(newline, rewrite, rest), Rewritten(newline, rewrite, Tail(newline, rest) + b));
    } else {
      ThenThen(Rewritten(newline, rewrite, a + b), None, None);
    }
  }

  lemma LineStep<B>(newline: B, rewrite: Rewrite<B>, s: seq<B>, n: nat, rest: seq<B>)
    requires n < |s| && LineEnd(newline, s) == n
    ensures rest == s[n + 1..] ==>
              Rewritten(newline, rewrite, s) == Then(Line(newline, rewrite, s[..n]), Rewritten(newline, rewrite, rest))
                && Tail(newline, s) == Tail(newline, rest)
  {
  }

  lemma FirstLine<B>(newline: B, a: seq<B>, b: seq<B>, n: nat)
    requires n < |a| && LineEnd(newline, a) == n
    ensures LineEnd(newline, a + b) == n && (a + b)[..n] == a[..n] && (a + b)[n + 1..] == a[n + 1..] + b
  {
    LineEndIs(newline, a + b, n);
  }

  /** `rewrite_miner_messages`: it raises exactly when a complete line does, and then gives nothing. */
  method RewriteMinerMessages<B(==)>(newline: B, rewrite: Rewrite<B>, buffer: seq<B>, data: seq<B>)
      returns (raised: bool, rest: seq<B>, output: seq<B>)
    ensures raised <==> Rewritten(newline, rewrite, buffer + data).None?
    ensures !raised ==>
              Some(output) == Rewritten(newline, rewrite, buffer + data) && rest == Tail(newline, buffer + data)
  {
    rest, output := buffer + data, [];
    ThenThen(Rewritten(newline, rewrite, rest), None, None);
    while newline in rest
      invariant Then(Some(output), Rewritten(newline, rewrite, rest)) == Rewritten(newline, rewrite, buffer + data)
      invariant Tail(newline, rest) == Tail(newline, buffer + data)
      decreases |rest|
    {
      var n := LineEnd(newline, rest);
      ThenThen(Some(output), Line(newline, rewrite, rest[..n]), Rewritten(newline, rewrite, rest[n + 1..]));
      var line := rewrite(rest[..n]);
      if line.None? {
        return true, rest, output;
      }
      output := output + (line.value + [newline]);
      rest := rest[n + 1..];
    }
    assert LineEnd(newline, rest) == |rest|;
    ThenThen(Some(output), None, None);
    raised := false;
  }

  lemma OneLine<B>(newline: B, rewrite: Rewrite<B>, line: seq<B>, after: seq<B>)
    requires newline !in line
    ensures Rewritten(newline, rewrite, line + [newline] + after)
            == Then(Line(newline, rewrite, line), Rewritten(newline, rewrite, after))
  {
    var s := line + [newline] + after;
    LineEndIs(newline, s, |line|);
    assert s[..|line|] == line && s[|line| + 1..] == after;
  }

  // ----- a connection

  /** What was sent of these chunks: the rewrite of their complete lines or, when one raises, of those
      of the chunks before the one that completes the first that does. */
  function Sent<B(==)>(newline: B, rewrite: Rewrite<B>, chunks: seq<seq<B>>): seq<B> {
    match Rewritten(newline, rewrite, Flatten(chunks))
    case Some(output) => output
    case None => if chunks == [] then [] else Sent(newline, rewrite, chunks[..|chunks| - 1])
  }

  /** Once a complete line raises, it does with whatever follows. */
  lemma RaisesStill<B>(newline: B, rewrite: Rewrite<B>, a: seq<B>, b: seq<B>)
    ensures Rewritten(newline, rewrite, a).None? ==> Rewritten(newline, rewrite, a + b).None?
  {
    Appended(newline, rewrite, a, b);
  }

  /** The k-th chunk completes the first line that raises. */
  predicate Raises<B(==)>(newline: B, rewrite: Rewrite<B>, chunks: seq<seq<B>>, k: nat) {
    && k < |chunks|
    && Rewritten(newline, rewrite, Flatten(chunks[..k])).Some?
    && Rewritten(newline, rewrite, Flatten(chunks[..k + 1])).None?
  }

  lemma SentLast<B>(newline: B, rewrite: Rewrite<B>, chunks: seq<seq<B>>)
    requires chunks != []
    ensures var n := |chunks| - 1;
            && Flatten(chunks) == Flatten(chunks[..n]) + chunks[n]
            && (Rewritten(newline, rewrite, Flatten(chunks)).None? ==>
                  Sent(newline, rewrite, chunks) == Sent(newline, rewrite, chunks[..n]))
  {
  }

  lemma SentWhole<B>(newline: B, rewrite: Rewrite<B>, chunks: seq<seq<B>>)
    requires Rewritten(newline, rewrite, Flatten(chunks)).Some?
    ensures Some(Sent(newline, rewrite, chunks)) == Rewritten(newline, rewrite, Flatten(chunks))
  {
  }

  /** It is the one that decides what was sent. */
  lemma {:induction false} SentBefore<B>(newline: B, rewrite: Rewrite<B>, chunks: seq<seq<B>>, k: nat)
    requires Raises(newline, rewrite, chunks, k)
    ensures Rewritten(newline, rewrite, Flatten(chunks)).None?
    ensures Some(Sent(newline, rewrite, chunks)) == Rewritten(newline, rewrite, Flatten(chunks[..k]))
  {
    var n := |chunks| - 1;
    SentLast(newline, rewrite, chunks);
    if k == n {
      assert chunks[..k + 1] == chunks;
      SentWhole(newline, rewrite, chunks[..k]);
    } else {
      var before := chunks[..n];
      assert before[..k] == chunks[..k] && before[..k + 1] == chunks[..k + 1];
      SentBefore(newline, rewrite, before, k);
      RaisesStill(newline, rewrite, Flatten(before), chunks[n]);
    }
  }

  /** A connection: each chunk as it arrives. Whatever the cuts, it stays open exactly when every
      complete line of all the bytes rewrites, and then what was sent is the line-by-line rewrite and
      the buffer is what no newline has ended yet. */
  method Proxy<B(==)>(newline: B, rewrite: Rewrite<B>, chunks: seq<seq<B>>)
      returns (open: bool, buffer: seq<B>, sent: seq<B>)
    ensures open <==> Rewritten(newline, rewrite, Flatten(chunks)).Some?
    ensures open ==>
              Some(sent) == Rewritten(newline, rewrite, Flatten(chunks)) && buffer == Tail(newline, Flatten(chunks))
    ensures !open ==> exists k :: Raises(newline, rewrite, chunks, k)
    ensures sent == Sent(newline, rewrite, chunks)
  {
    buffer, sent := [], [];
    for i := 0 to |chunks|
      invariant Some(sent) == Rewritten(newline, rewrite, Flatten(chunks[..i]))
                && buffer == Tail(newline, Flatten(chunks[..i]))
    {
      Appended(newline, rewrite, Flatten(chunks[..i]), chunks[i]);
      assert chunks[..i + 1][..i] == chunks[..i];
      var raised, rest, output := RewriteMinerMessages(newline, rewrite, buffer, chunks[i]);
      if raised {
        assert Raises(newline, rewrite, chunks, i);
        SentBefore(newline, rewrite, chunks, i);
        return false, rest, sent;
      }
      buffer, sent := rest, sent + output;
    }
    assert chunks[..|chunks|] == chunks;
    open := true;
  }

  /** One stream cut in two ways: a line that rewrites is lost when the line after it, which raises,
      comes in the same chunk, and is sent when it comes in a chunk before. */
  lemma CutMatters<B>(newline: B, rewrite: Rewrite<B>, good: seq<B>, bad: seq<B>)
    requires newline !in good && newline !in bad && rewrite(good).Some? && rewrite(bad).None?
    ensures var one, two := [good + [newline] + (bad + [newline])], [good + [newline], bad + [newline]];
            && Flatten(one) == Flatten(two)
            && Sent(newline, rewrite, one) == [] && Sent(newline, rewrite, two) == rewrite(good).value + [newline]
  {
    var first, last := good + [newline], bad + [newline];
    var one, two := [first + last], [first, last];
    assert one[..0] == [] && two[..0] == [] && two[..1] == [first] && [first][..0] == [];
    assert Flatten(one) == first + last && Flatten([first]) == first && Flatten(two) == first + last;
    OneLine(newline, rewrite, good, []);
    assert first + [] == first;
    OneLine(newline, rewrite, good, last);
    OneLine(newline, rewrite, bad, []);
    assert last + [] == last;
    assert Rewritten(newline, rewrite, []) == Some([]);
    ThenThen(Line(newline, rewrite, good), None, None);
    assert Raises(newline, rewrite, one, 0) && Raises(newline, rewrite, two, 1);
    SentBefore(newline, rewrite, one, 0);
    SentBefore(newline, rewrite, two, 1);
  }
}
