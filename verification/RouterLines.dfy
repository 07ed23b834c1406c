/** backend/router.py: what rewriting a stream means, line by line. */
module RouterLines {
  import opened Results
  import opened Router

  /** The lines, each with its newline, one after another. */
  function Ended<B>(newline: B, lines: seq<seq<B>>): seq<B> {
    if lines == [] then []
    else
      var n := |lines| - 1;
      Ended(newline, lines[..n]) + (lines[n] + [newline])
  }

  predicate NoneRaises<B>(rewrite: Rewrite<B>, lines: seq<seq<B>>) {
    forall i :: 0 <= i < |lines| ==> rewrite(lines[i]).Some?
  }

  /** What the lines are rewritten to, each with a newline, in their order. */
  function Echoed<B>(newline: B, rewrite: Rewrite<B>, lines: seq<seq<B>>): seq<B>
    requires NoneRaises(rewrite, lines)
  {
    if lines == [] then []
    else
      var n := |lines| - 1;
      Echoed(newline, rewrite, lines[..n]) + (rewrite(lines[n]).value + [newline])
  }

  lemma AddedLine<B>(newline: B, rewrite: Rewrite<B>, start: seq<B>, line: seq<B>, rest: seq<B>)
    requires newline !in line && newline !in rest && Tail(newline, start) == []
    ensures var s := start + (line + [newline]) + rest;
            && Tail(newline, s) == rest
            && Rewritten(newline, rewrite, s) == Then(Rewritten(newline, rewrite, start), Line(newline, rewrite, line))
  {
    var more := line + [newline] + rest;
    assert start + (line + [newline]) + rest == start + more && [] + more == more;
    Appended(newline, rewrite, start, more);
    OneLine(newline, rewrite, line, rest);
    LineEndIs(newline, rest, |rest|);
    LineEndIs(newline, more, |line|);
    assert more[|line| + 1..] == rest;
    ThenThen(Line(newline, rewrite, line), None, None);
  }

  lemma EchoedLast<B>(newline: B, rewrite: Rewrite<B>, lines: seq<seq<B>>)
    requires lines != []
    ensures var n := |lines| - 1;
            && (NoneRaises(rewrite, lines) <==> NoneRaises(rewrite, lines[..n]) && rewrite(lines[n]).Some?)
            && (NoneRaises(rewrite, lines) ==>
                  Echoed(newline, rewrite, lines)
                  == Echoed(newline, rewrite, lines[..n]) + (rewrite(lines[n]).value + [newline]))
  {
    var n := |lines| - 1;
    if NoneRaises(rewrite, lines[..n]) && rewrite(lines[n]).Some? {
      forall i | 0 <= i < |lines|
        ensures rewrite(lines[i]).Some?
      {
        assert i < n ==> lines[i] == lines[..n][i];
      }
    }
  }

  /** Lines with their newlines, and a rest without one: the lines are rewritten in their order unless one of
      them raises, and the rest waits. */
  lemma {:induction false} LineByLine<B>(newline: B, rewrite: Rewrite<B>, lines: seq<seq<B>>, rest: seq<B>)
    requires newline !in rest && forall i :: 0 <= i < |lines| ==> newline !in lines[i]
    ensures var s := Ended(newline, lines) + rest;
            && Tail(newline, s) == rest
            && Rewritten(newline, rewrite, s)
               == if NoneRaises(rewrite, lines) then Some(Echoed(newline, rewrite, lines)) else None
  {
    if lines == [] {
      assert Ended(newline, lines) + rest == rest;
      LineEndIs(newline, rest, |rest|);
    } else {
      var n := |lines| - 1;
      var start := Ended(newline, lines[..n]);
      LineByLine(newline, rewrite, lines[..n], []);
      assert start + [] == start;
      AddedLine(newline, rewrite, start, lines[n], rest);
      EchoedLast(newline, rewrite, lines);
    }
  }
}
