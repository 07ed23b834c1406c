/** The text of a trend file, one row a line, and what appending rows to it does. */
module TextRows {
  import opened Common
  import opened Results

  /** Rendering and reading one row, and the characters `str.splitlines` breaks at. */
  datatype Format<!T> = Format(dump: T -> string, parse: string -> Option<T>, breaks: char -> bool)

  /** `json.dumps` escapes every line break, and `json.loads` reads its output back; an empty line
      is no row. */
  ghost predicate RoundTrips<T(!new)>(f: Format<T>) {
    && f.breaks('\n')
    && f.parse("") == None
    && (forall r :: f.parse(f.dump(r)) == Some(r))
    && (forall r, i :: 0 <= i < |f.dump(r)| ==> !f.breaks(f.dump(r)[i]))
  }

  function RowOf<T>(f: Format<T>, line: string): seq<T> {
    match f.parse(line)
    case Some(r) => [r]
    case None => []
  }

  /** The rows of `line + text`, where `line` holds no line break. */
  function RowsAfter<T(!new)>(f: Format<T>, line: string, text: string): seq<T>
    decreases |text|
  {
    if text == "" then RowOf(f, line)
    else if f.breaks(text[0]) then RowOf(f, line) + RowsAfter(f, "", text[1..])
    else RowsAfter(f, line + [text[0]], text[1..])
  }

  /** `lines_of` */
  function RowsOf<T(!new)>(f: Format<T>, text: string): seq<T> {
    RowsAfter(f, "", text)
  }

  function Terminated(text: string): string {
    if text != "" && text[|text| - 1] != '\n' then text + "\n" else text
  }

  function Rendered<T(!new)>(f: Format<T>, rows: seq<T>): string {
    if rows == [] then "" else f.dump(rows[0]) + "\n" + Rendered(f, rows[1..])
  }

  /** What a trend file becomes when `rows` are appended to it. */
  function Appended<T(!new)>(f: Format<T>, text: string, rows: seq<T>): string {
    Terminated(text) + Rendered(f, rows)
  }

  /** Text after a line break adds its rows to those before. */
  lemma {:induction false} RowsCut<T(!new)>(f: Format<T>, line: string, a: string, b: string)
    requires f.parse("") == None && a != "" && f.breaks(a[|a| - 1])
    ensures RowsAfter(f, line, a + b) == RowsAfter(f, line, a) + RowsOf(f, b)
    decreases |a|
  {
    assert (a + b)[0] == a[0] && (a + b)[1..] == a[1..] + b;
    if |a| == 1 {
      assert a[1..] + b == b;
      assert RowsAfter(f, "", a[1..]) == [];
      Associate(RowOf(f, line), [], RowsOf(f, b));
    } else if f.breaks(a[0]) {
      RowsCut(f, "", a[1..], b);
      Associate(RowOf(f, line), RowsAfter(f, "", a[1..]), RowsOf(f, b));
    } else {
      RowsCut(f, line + [a[0]], a[1..], b);
    }
  }

  /** The newline that ends an unterminated last line changes no row. */
  lemma {:induction false} NewlineAddsNothing<T(!new)>(f: Format<T>, line: string, text: string)
    requires f.breaks('\n') && f.parse("") == None
    ensures RowsAfter(f, line, text + "\n") == RowsAfter(f, line, text)
    decreases |text|
  {
    if text == "" {
      assert (text + "\n")[1..] == "";
    } else {
      assert (text + "\n")[0] == text[0] && (text + "\n")[1..] == text[1..] + "\n";
      NewlineAddsNothing(f, if f.breaks(text[0]) then "" else line + [text[0]], text[1..]);
    }
  }

  lemma {:induction false} UnbrokenText<T(!new)>(f: Format<T>, line: string, text: string)
    requires forall i :: 0 <= i < |text| ==> !f.breaks(text[i])
    ensures RowsAfter(f, line, text) == RowOf(f, line + text)
    decreases |text|
  {
    if text == "" {
      assert line + text == line;
    } else {
      UnbrokenText(f, line + [text[0]], text[1..]);
      assert line + [text[0]] + text[1..] == line + text;
    }
  }

  lemma OneRendered<T(!new)>(f: Format<T>, r: T)
    requires RoundTrips(f)
    ensures RowsOf(f, f.dump(r) + "\n") == [r]
  {
    NewlineAddsNothing(f, "", f.dump(r));
    UnbrokenText(f, "", f.dump(r));
    assert "" + f.dump(r) == f.dump(r);
  }

  lemma {:induction false} RowsRendered<T(!new)>(f: Format<T>, rows: seq<T>)
    requires RoundTrips(f)
    ensures RowsOf(f, Rendered(f, rows)) == rows
  {
    if rows != [] {
      OneRendered(f, rows[0]);
      RowsRendered(f, rows[1..]);
      RowsCut(f, "", f.dump(rows[0]) + "\n", Rendered(f, rows[1..]));
      assert rows == [rows[0]] + rows[1..];
    }
  }

  /** Appending keeps the old text as a prefix, and adds exactly the new rows. */
  lemma AppendedRows<T(!new)>(f: Format<T>, text: string, rows: seq<T>)
    requires RoundTrips(f)
    ensures text <= Appended(f, text, rows)
    ensures RowsOf(f, Appended(f, text, rows)) == RowsOf(f, text) + rows
  {
    RowsRendered(f, rows);
    if text == "" {
      assert Appended(f, text, rows) == Rendered(f, rows);
    } else {
      if text[|text| - 1] != '\n' {
        NewlineAddsNothing(f, "", text);
      }
      RowsCut(f, "", Terminated(text), Rendered(f, rows));
    }
  }

  /** A line, its break and more text: the line's row, if it is one, and then those of the rest. */
  lemma FirstLineRow<T(!new)>(f: Format<T>, line: string, end: char, rest: string)
    requires f.parse("") == None && f.breaks(end) && forall i :: 0 <= i < |line| ==> !f.breaks(line[i])
    ensures RowsOf(f, line + [end] + rest) == (if f.parse(line).Some? then [f.parse(line).value] else [])
            + RowsOf(f, rest)
  {
    RowsCut(f, "", line + [end], rest);
    BrokenText(f, "", line, end);
    assert "" + line == line;
  }

  lemma {:induction false} BrokenText<T(!new)>(f: Format<T>, line: string, text: string, end: char)
    requires f.parse("") == None && f.breaks(end) && forall i :: 0 <= i < |text| ==> !f.breaks(text[i])
    ensures RowsAfter(f, line, text + [end]) == RowOf(f, line + text)
    decreases |text|
  {
    if text == "" {
      assert line + text == line && (text + [end])[1..] == "";
      assert RowsAfter(f, "", "") == [];
    } else {
      assert (text + [end])[0] == text[0] && (text + [end])[1..] == text[1..] + [end];
      BrokenText(f, line + [text[0]], text[1..], end);
      assert line + [text[0]] + text[1..] == line + text;
    }
  }

  /** The text that is written: the old text, ended by a newline if it was not, and then each row and a newline. */
  lemma AppendedText<T(!new)>(f: Format<T>, text: string, rows: seq<T>, r: T)
    ensures Appended(f, text, []) == if text == "" || text[|text| - 1] == '\n' then text else text + "\n"
    ensures Appended(f, text, rows + [r]) == Appended(f, text, rows) + (f.dump(r) + "\n")
  {
    RenderedMore(f, rows, r);
    Associate(Terminated(text), Rendered(f, rows), f.dump(r) + "\n");
    assert Terminated(text) + "" == Terminated(text);
  }

  lemma {:induction false} RenderedMore<T(!new)>(f: Format<T>, rows: seq<T>, r: T)
    ensures Rendered(f, rows + [r]) == Rendered(f, rows) + (f.dump(r) + "\n")
  {
    if rows == [] {
      assert rows + [r] == [r] && [r][1..] == [];
      assert f.dump(r) + "\n" + "" == f.dump(r) + "\n";
    } else {
      assert (rows + [r])[1..] == rows[1..] + [r];
      RenderedMore(f, rows[1..], r);
      Associate(f.dump(rows[0]) + "\n", Rendered(f, rows[1..]), f.dump(r) + "\n");
    }
  }
}
