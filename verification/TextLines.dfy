/** How scripts/prism-recovery-evidence.py turns bytes into lines: UTF-8 (section 3 of RFC 3629),
    universal newlines, and lines that keep their newline. Cutting a file just after a newline
    byte commutes with all three. */
module TextLines {
  import opened Common
  import opened Results

  const NEWLINE: Byte := 10

  predicate EndsWithNewline(b: Bytes) {
    b != [] && b[|b| - 1] == NEWLINE
  }

  // ----- UTF-8

  predicate Tail(b: Bytes, i: nat) {
    i < |b| && 0x80 <= b[i] < 0xC0
  }

  /** The six payload bits of a trailing byte. */
  function Payload(b: Bytes, i: nat): (r: int)
    requires Tail(b, i)
    ensures 0 <= r < 0x40
  {
    b[i] as int - 0x80
  }

  /** The first character of `b` and how many bytes it takes, if `b` starts with a valid one. */
  function DecodeFirst(b: Bytes): (r: Option<(char, nat)>)
    requires b != []
    ensures r.Some? ==> 1 <= r.value.1 <= |b|
  {
    var lead := b[0] as int;
    if lead < 0x80 then Some((lead as char, 1))
    else if 0xC2 <= lead < 0xE0 && Tail(b, 1) then
      Some((((lead - 0xC0) * 0x40 + Payload(b, 1)) as char, 2))
    else if 0xE0 <= lead < 0xF0 && Tail(b, 1) && Tail(b, 2)
      && (lead == 0xE0 ==> b[1] >= 0xA0) && (lead == 0xED ==> b[1] < 0xA0) then
      Some((((lead - 0xE0) * 0x1000 + Payload(b, 1) * 0x40 + Payload(b, 2)) as char, 3))
    else if 0xF0 <= lead < 0xF5 && Tail(b, 1) && Tail(b, 2) && Tail(b, 3)
      && (lead == 0xF0 ==> b[1] >= 0x90) && (lead == 0xF4 ==> b[1] < 0x90) then
      Some((((lead - 0xF0) * 0x40000 + Payload(b, 1) * 0x1000 + Payload(b, 2) * 0x40 + Payload(b, 3)) as char, 4))
    else None
  }

  function Prepend(c: char, t: Option<string>): Option<string> {
    if t.Some? then Some([c] + t.value) else None
  }

  function Decode(b: Bytes): Option<string> {
    if b == [] then Some("")
    else
      match DecodeFirst(b)
      case None => None
      case Some((c, n)) => Prepend(c, Decode(b[n..]))
  }

  /** An incremental decoder accepts `b`, whether or not more bytes follow: it is valid, but may
      stop inside a character. */
  predicate DecodesSoFar(b: Bytes) {
    if b == [] then true
    else
      match DecodeFirst(b)
      case Some((_, n)) => DecodesSoFar(b[n..])
      case None => StopsInside(b)
  }

  /** `b` is too short for the character it starts, and right as far as it goes. */
  predicate StopsInside(b: Bytes)
    requires b != []
  {
    var lead := b[0];
    && (forall i :: 1 <= i < |b| ==> Tail(b, i))
    && (|b| > 1 && lead == 0xE0 ==> b[1] >= 0xA0)
    && (|b| > 1 && lead == 0xED ==> b[1] < 0xA0)
    && (|b| > 1 && lead == 0xF0 ==> b[1] >= 0x90)
    && (|b| > 1 && lead == 0xF4 ==> b[1] < 0x90)
    && ((0xC2 <= lead < 0xE0 && |b| == 1) || (0xE0 <= lead < 0xF0 && |b| <= 2) || (0xF0 <= lead < 0xF5 && |b| <= 3))
  }

  /** A character that starts before a newline byte ends before it, or is that byte. */
  lemma FirstBeforeNewline(a: Bytes, b: Bytes)
    requires EndsWithNewline(a)
    ensures DecodeFirst(a + b) == DecodeFirst(a)
    ensures DecodeFirst(a).Some? && DecodeFirst(a).value.1 == |a| ==> a == [NEWLINE]
  {
    assert forall i :: 0 <= i < |a| ==> (a + b)[i] == a[i];
    assert !Tail(a, |a| - 1);
  }

  function Join(x: Option<string>, y: Option<string>): Option<string> {
    if x.Some? && y.Some? then Some(x.value + y.value) else None
  }

  lemma PrependJoin(c: char, x: Option<string>, y: Option<string>)
    ensures Join(Prepend(c, x), y) == Prepend(c, Join(x, y))
  {
    if x.Some? && y.Some? {
      assert [c] + (x.value + y.value) == ([c] + x.value) + y.value;
    }
  }

  predicate Closed(t: string) {
    t != "" && t[|t| - 1] == '\n'
  }

  lemma {:induction false} DecodeCut(a: Bytes, b: Bytes)
    requires EndsWithNewline(a)
    ensures Decode(a + b) == Join(Decode(a), Decode(b))
    ensures Decode(a).Some? ==> Closed(Decode(a).value)
  {
    FirstBeforeNewline(a, b);
    match DecodeFirst(a) {
      case None =>
      case Some((c, n)) =>
        assert (a + b)[n..] == a[n..] + b;
        if n == |a| {
          assert a[n..] + b == b && Decode(a[n..]) == Some("");
          assert Decode(b).Some? ==> "" + Decode(b).value == Decode(b).value;
        } else {
          DecodeCut(a[n..], b);
        }
        PrependJoin(c, Decode(a[n..]), Decode(b));
    }
  }

  // ----- universal newlines

  /** What a text-mode read does: "\r\n" and "\r" each become "\n". */
  function Universal(t: string): string {
    if t == "" then "" else [if t[0] == '\r' then '\n' else t[0]] + Universal(t[Consumed(t)..])
  }

  /** How many characters of `t` the first one translated stands for. */
  function Consumed(t: string): (n: nat)
    requires t != ""
    ensures 1 <= n <= |t|
  {
    if |t| > 1 && t[0] == '\r' && t[1] == '\n' then 2 else 1
  }

  function FoldCrLf(t: string): string {
    if t == "" then ""
    else if |t| > 1 && t[0] == '\r' && t[1] == '\n' then "\n" + FoldCrLf(t[2..])
    else [t[0]] + FoldCrLf(t[1..])
  }

  function FoldCr(t: string): string {
    if t == "" then "" else [if t[0] == '\r' then '\n' else t[0]] + FoldCr(t[1..])
  }

  /** The two replacements the range parser makes are that translation. */
  lemma {:induction false} ReplacementsAreUniversal(t: string)
    ensures FoldCr(FoldCrLf(t)) == Universal(t)
  {
    if t != "" {
      if |t| > 1 && t[0] == '\r' && t[1] == '\n' {
        ReplacementsAreUniversal(t[2..]);
        assert ("\n" + FoldCrLf(t[2..]))[1..] == FoldCrLf(t[2..]);
      } else {
        ReplacementsAreUniversal(t[1..]);
        assert ([t[0]] + FoldCrLf(t[1..]))[1..] == FoldCrLf(t[1..]);
      }
    }
  }

  /** Without a carriage return nothing is replaced, so the parser may skip the replacements. */
  lemma {:induction false} NothingToReplace(t: string)
    requires '\r' !in t
    ensures Universal(t) == t
  {
    if t != "" {
      NothingToReplace(t[1..]);
      assert t == [t[0]] + t[1..];
    }
  }

  lemma {:induction false} UniversalCut(a: string, b: string)
    requires Closed(a)
    ensures Universal(a + b) == Universal(a) + Universal(b)
    ensures Closed(Universal(a))
  {
    var n := Consumed(a);
    assert (a + b)[0] == a[0] && (|a| > 1 ==> (a + b)[1] == a[1]);
    assert Consumed(a + b) == n;
    assert (a + b)[n..] == a[n..] + b;
    if n == |a| {
      assert a[n..] + b == b && Universal(a[n..]) == "";
    } else {
      UniversalCut(a[n..], b);
      Associate([if a[0] == '\r' then '\n' else a[0]], Universal(a[n..]), Universal(b));
    }
  }

  // ----- lines

  /** Where the first newline at or after `from` is, or the length of `t`. */
  function FindNewline(t: string, from: nat): (n: nat)
    requires from <= |t|
    ensures from <= n <= |t|
    ensures forall i :: from <= i < n ==> t[i] != '\n'
    ensures n < |t| ==> t[n] == '\n'
    decreases |t| - from
  {
    if from == |t| || t[from] == '\n' then from else FindNewline(t, from + 1)
  }

  function LinesFrom(t: string, from: nat): seq<string>
    requires from <= |t|
    decreases |t| - from
  {
    var end := FindNewline(t, from);
    if end == |t| then if from < |t| then [t[from..]] else []
    else [t[from..end + 1]] + LinesFrom(t, end + 1)
  }

  function SplitLines(t: string): seq<string> {
    LinesFrom(t, 0)
  }

  lemma LinesGoOn(t: string, lines: seq<string>, start: nat, end: nat)
    requires start <= |t| && FindNewline(t, start) == end
    ensures end < |t| ==>
              lines + LinesFrom(t, start) == (lines + [t[start..end + 1]]) + LinesFrom(t, end + 1)
    ensures end == |t| ==> lines + LinesFrom(t, start) == lines + if start < |t| then [t[start..]] else []
  {
    LinesStep(t, start, end);
    if end < |t| {
      Associate(lines, [t[start..end + 1]], LinesFrom(t, end + 1));
    }
  }

  /** The generator `_text_lines`, run to its end. */
  method TextLinesOf(t: string) returns (lines: seq<string>)
    ensures lines == SplitLines(t)
  {
    lines := [];
    var start := 0;
    while true
      invariant start <= |t|
      invariant SplitLines(t) == lines + LinesFrom(t, start)
      decreases |t| - start
    {
      var end := NewlineFrom(t, start);
      LinesGoOn(t, lines, start, end);
      if end == |t| {
        if start < |t| {
          lines := lines + [t[start..]];
        }
        return;
      }
      lines := lines + [t[start..end + 1]];
      start := end + 1;
    }
  }

  /** `text.find("\n", start)`, or the end of the text. */
  method NewlineFrom(t: string, start: nat) returns (end: nat)
    requires start <= |t|
    ensures end == FindNewline(t, start)
  {
    end := start;
    while end < |t| && t[end] != '\n'
      invariant start <= end <= |t|
      invariant FindNewline(t, start) == FindNewline(t, end)
    {
      end := end + 1;
    }
  }

  /** No text is lost or moved, and a newline ends each line but perhaps the last. */
  lemma {:induction false} LinesFaithful(t: string, from: nat)
    requires from <= |t|
    ensures Joined(LinesFrom(t, from)) == t[from..]
    ensures AreLines(LinesFrom(t, from))
    decreases |t| - from
  {
    var end := FindNewline(t, from);
    LinesStep(t, from, end);
    if end < |t| {
      LinesFaithful(t, end + 1);
      ClosedLine(t, from, end);
      FirstFaithful(t, from, end + 1, LinesFrom(t, end + 1));
    } else if from < |t| {
      OpenLine(t, from);
      LastFaithful(t[from..]);
    }
  }

  lemma ClosedLine(t: string, from: nat, end: nat)
    requires from <= end < |t| && FindNewline(t, from) == end
    ensures IsLine(t[from..end + 1], true)
  {
  }

  lemma OpenLine(t: string, from: nat)
    requires from < |t| && FindNewline(t, from) == |t|
    ensures IsLine(t[from..], false)
  {
  }

  lemma LastFaithful(line: string)
    requires IsLine(line, false)
    ensures Joined([line]) == line && AreLines([line])
  {
    assert [line][1..] == [] && line + "" == line;
  }

  /** Lines, all ended by their newline but perhaps the last. */
  predicate AreLines(lines: seq<string>) {
    forall k :: 0 <= k < |lines| ==> IsLine(lines[k], k + 1 < |lines|)
  }

  lemma FirstFaithful(t: string, from: nat, end: nat, rest: seq<string>)
    requires from < end <= |t| && IsLine(t[from..end], true) && Joined(rest) == t[end..]
    requires AreLines(rest)
    ensures Joined([t[from..end]] + rest) == t[from..] && AreLines([t[from..end]] + rest)
  {
    assert ([t[from..end]] + rest)[1..] == rest;
  }

  function Joined(lines: seq<string>): string {
    if lines == [] then "" else lines[0] + Joined(lines[1..])
  }

  predicate IsLine(line: string, closed: bool) {
    && line != ""
    && (forall i :: 0 <= i < |line| - 1 ==> line[i] != '\n')
    && (closed ==> line[|line| - 1] == '\n')
  }

  lemma {:induction false} FindInPrefix(a: string, b: string, from: nat)
    requires from < |a| && Closed(a)
    ensures FindNewline(a + b, from) == FindNewline(a, from) < |a|
    decreases |a| - from
  {
    if a[from] != '\n' {
      FindInPrefix(a, b, from + 1);
    }
  }

  lemma LinesStep(t: string, from: nat, end: nat)
    requires from <= |t| && FindNewline(t, from) == end
    ensures LinesFrom(t, from) == if end < |t| then [t[from..end + 1]] + LinesFrom(t, end + 1)
                                  else if from < |t| then [t[from..]] else []
  {
  }

  lemma ShiftOne(t: string, b: string, n: nat, from: nat, end: nat)
    requires from <= end <= |b| && |t| == n + |b|
    requires FindNewline(b, from) == end && FindNewline(t, n + from) == n + end
    requires if end < |b| then t[n + from..n + end + 1] == b[from..end + 1] else t[n + from..] == b[from..]
    requires end < |b| ==> LinesFrom(t, n + end + 1) == LinesFrom(b, end + 1)
    ensures LinesFrom(t, n + from) == LinesFrom(b, from)
  {
  }

  lemma {:induction false} LinesShift(a: string, b: string, from: nat)
    requires from <= |b|
    ensures LinesFrom(a + b, |a| + from) == LinesFrom(b, from)
    decreases |b| - from
  {
    var end := FindNewline(b, from);
    FindShift(a, b, from);
    SliceShift(a, b, from, if end < |b| then end + 1 else end);
    if end < |b| {
      LinesShift(a, b, end + 1);
    }
    ShiftOne(a + b, b, |a|, from, end);
  }

  lemma SliceShift<T>(a: seq<T>, b: seq<T>, from: nat, end: nat)
    requires from <= end <= |b|
    ensures (a + b)[|a| + from..|a| + end] == b[from..end]
    ensures end == |b| ==> (a + b)[|a| + from..] == b[from..]
  {
  }

  lemma {:induction false} FindShift(a: string, b: string, from: nat)
    requires from <= |b|
    ensures FindNewline(a + b, |a| + from) == |a| + FindNewline(b, from)
    decreases |b| - from
  {
    if from < |b| && b[from] != '\n' {
      FindShift(a, b, from + 1);
    }
  }

  lemma FirstLine(t: string, from: nat)
    requires from <= |t| && FindNewline(t, from) < |t|
    ensures LinesFrom(t, from) == [t[from..FindNewline(t, from) + 1]] + LinesFrom(t, FindNewline(t, from) + 1)
  {
  }

  lemma LinesAtCut(a: string, b: string)
    ensures LinesFrom(a + b, |a|) == LinesFrom(a, |a|) + SplitLines(b)
  {
    LinesShift(a, b, 0);
    assert LinesFrom(a, |a|) == [];
  }

  lemma SliceOfPrefix(a: string, b: string, i: nat, j: nat)
    requires i <= j <= |a|
    ensures (a + b)[i..j] == a[i..j]
  {
  }

  lemma {:induction false} LinesCut(a: string, b: string, from: nat)
    requires from <= |a| && Closed(a)
    ensures LinesFrom(a + b, from) == LinesFrom(a, from) + SplitLines(b)
    decreases |a| - from
  {
    if from == |a| {
      LinesAtCut(a, b);
    } else {
      FindInPrefix(a, b, from);
      var end := FindNewline(a, from);
      FirstLine(a, from);
      FirstLine(a + b, from);
      SliceOfPrefix(a, b, from, end + 1);
      LinesCut(a, b, end + 1);
      Associate([a[from..end + 1]], LinesFrom(a, end + 1), SplitLines(b));
    }
  }

  // ----- the lines of a file

  /** The lines a text-mode read yields of bytes that are all valid. */
  function FileLines(b: Bytes): seq<string>
    requires Decode(b).Some?
  {
    SplitLines(Universal(Decode(b).value))
  }

  /** Cutting after a newline byte cuts the decoding and the lines in the same place. */
  lemma FileLinesCut(a: Bytes, b: Bytes)
    requires a == [] || EndsWithNewline(a)
    ensures Decode(a + b).Some? <==> Decode(a).Some? && Decode(b).Some?
    ensures Decode(a + b).Some? ==> FileLines(a + b) == FileLines(a) + FileLines(b)
  {
    if a == [] {
      assert a + b == b;
    } else {
      DecodeCut(a, b);
      if Decode(a).Some? && Decode(b).Some? {
        var x, y := Decode(a).value, Decode(b).value;
        UniversalCut(x, y);
        LinesCut(Universal(x), Universal(y), 0);
      }
    }
  }
}
