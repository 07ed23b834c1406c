/** How a worker reads one range of an export (`_Items`, `_parse_range`), and what replaying its
    items means (`_replay`): the same as feeding the range's lines to the summary one by one. */
module EvidenceRange {
  import opened Common
  import opened Results
  import opened TextLines
  import opened EvidenceJson
  import opened EvidenceSummary

  /** One result of a worker, in file order. */
  datatype Entry =
    | RowsEntry(of: Hashed, count: nat, blob: Bytes)
    | SharesEntry(count: nat, blob: Bytes, first: int, last: int, accepted: int)
    | RecordEntry(kind: Json, row: Json, canonical: Option<Bytes>)
    | ErrorEntry(error: Error)
    | SerialEntry

  const SERIAL: seq<Entry> := [SerialEntry]

  predicate NoSerial(items: seq<Entry>) {
    forall k :: 0 <= k < |items| ==> !items[k].SerialEntry?
  }

  // ----- replaying

  function Apply(w: World, st: State, item: Entry): Result<State, Error>
    requires !item.SerialEntry?
  {
    match item
    case RowsEntry(kind, count, blob) => RowRun(w, st, kind, count, blob)
    case SharesEntry(count, blob, first, last, accepted) => ShareRun(w, st, count, blob, first, last, accepted)
    case RecordEntry(kind, row, canonical) =>
      var started :- Start(st);
      Record(w, started, kind, row, canonical)
    case ErrorEntry(e) =>
      var started :- Start(st);
      Err(e)
  }

  function Replay(w: World, st: State, items: seq<Entry>): Result<State, Error>
    requires NoSerial(items)
    decreases |items|
  {
    if items == [] then Ok(st)
    else
      var next :- Apply(w, st, items[0]);
      Replay(w, next, items[1..])
  }

  datatype Replayed = Fed | Refused(error: Error) | NeedsSerial

  /** `_replay` */
  method ReplayInto(w: World, summary: Summary, items: seq<Entry>) returns (r: Replayed)
    requires NoSerial(items) || items == SERIAL
    modifies summary
    ensures items == SERIAL ==> r == NeedsSerial && summary.Value() == old(summary.Value())
    ensures NoSerial(items) ==>
      match Replay(w, old(summary.Value()), items)
      case Ok(st) => r == Fed && summary.Value() == st
      case Err(e) => r == Refused(e)
  {
    for i := 0 to |items|
      invariant items == SERIAL ==> i == 0
      invariant i == 0 ==> summary.Value() == old(summary.Value())
      invariant NoSerial(items) ==> NoSerial(items[i..])
      invariant NoSerial(items) ==> Replay(w, old(summary.Value()), items) == Replay(w, summary.Value(), items[i..])
    {
      var outcome;
      match items[i] {
        case RowsEntry(kind, count, blob) =>
          outcome := summary.AddRows(w, kind, count, blob);
        case SharesEntry(count, blob, first, last, accepted) =>
          outcome := summary.AddShares(w, count, blob, first, last, accepted);
        case RecordEntry(kind, row, canonical) =>
          outcome := summary.StartLine();
          if outcome.Ok? {
            outcome := summary.RecordRow(w, kind, row, canonical);
          }
        case ErrorEntry(error) =>
          outcome := summary.StartLine();
          if outcome.Ok? {
            outcome := Err(error);
          }
        case SerialEntry =>
          return NeedsSerial;
      }
      if outcome.Err? {
        return Refused(outcome.error);
      }
      assert items[i..][1..] == items[i + 1..];
    }
    r := Fed;
  }

  // ----- items that stand for lines

  /** From any state, replaying `items` is checking `lines`: the same state, or the same refusal. */
  ghost predicate Represents(w: World, items: seq<Entry>, lines: seq<string>) {
    NoSerial(items) && forall st :: Replay(w, st, items) == Lines(w, st, lines)
  }

  /** The one item `item` stands for the one line `line`. */
  ghost predicate Stands(w: World, item: Entry, line: string) {
    !item.SerialEntry? && forall st :: Apply(w, st, item) == Line(w, st, line)
  }

  /** `longer` stands for all that `shorter` does, then `line`. */
  ghost predicate Extends(w: World, shorter: Entry, longer: Entry, line: string) {
    !shorter.SerialEntry? && !longer.SerialEntry? && forall st :: ExtendsAt(w, st, shorter, longer, line)
  }

  predicate ExtendsAt(w: World, st: State, shorter: Entry, longer: Entry, line: string)
    requires !shorter.SerialEntry? && !longer.SerialEntry?
  {
    Apply(w, st, longer) == match Apply(w, st, shorter)
                            case Ok(mid) => Line(w, mid, line)
                            case Err(e) => Err(e)
  }

  lemma {:induction false} ReplayAppend(w: World, st: State, a: seq<Entry>, b: seq<Entry>)
    requires NoSerial(a) && NoSerial(b)
    ensures NoSerial(a + b)
    ensures Replay(w, st, a + b) == match Replay(w, st, a)
                                    case Ok(mid) => Replay(w, mid, b)
                                    case Err(e) => Err(e)
    decreases |a|
  {
    if a == [] {
      assert a + b == b;
    } else {
      assert (a + b)[1..] == a[1..] + b;
      if Apply(w, st, a[0]).Ok? {
        ReplayAppend(w, Apply(w, st, a[0]).value, a[1..], b);
      }
    }
  }

  lemma ReplayOne(w: World, st: State, item: Entry)
    requires !item.SerialEntry?
    ensures Replay(w, st, [item]) == Apply(w, st, item)
  {
    if Apply(w, st, item).Ok? {
      assert [item][1..] == [];
    }
  }

  lemma AddItem(w: World, items: seq<Entry>, lines: seq<string>, item: Entry, line: string)
    requires Represents(w, items, lines) && Stands(w, item, line)
    ensures Represents(w, items + [item], lines + [line])
  {
    forall st
      ensures Replay(w, st, items + [item]) == Lines(w, st, lines + [line])
    {
      ReplayAppend(w, st, items, [item]);
      LinesAppend(w, st, lines, [line]);
      assert Replay(w, st, items) == Lines(w, st, lines);
      if Lines(w, st, lines).Ok? {
        var mid := Lines(w, st, lines).value;
        ReplayOne(w, mid, item);
        OneLine(w, mid, line);
        assert Apply(w, mid, item) == Line(w, mid, line);
      }
    }
  }

  lemma ExtendItem(w: World, items: seq<Entry>, lines: seq<string>, shorter: Entry, longer: Entry, line: string)
    requires Represents(w, items + [shorter], lines) && NoSerial(items) && Extends(w, shorter, longer, line)
    ensures Represents(w, items + [longer], lines + [line])
  {
    forall st
      ensures Replay(w, st, items + [longer]) == Lines(w, st, lines + [line])
    {
      ReplayAppend(w, st, items, [shorter]);
      ReplayAppend(w, st, items, [longer]);
      LinesAppend(w, st, lines, [line]);
      assert Replay(w, st, items + [shorter]) == Lines(w, st, lines);
      if Replay(w, st, items).Ok? {
        var mid := Replay(w, st, items).value;
        ReplayOne(w, mid, shorter);
        ReplayOne(w, mid, longer);
        assert ExtendsAt(w, mid, shorter, longer, line);
        if Apply(w, mid, shorter).Ok? {
          OneLine(w, Apply(w, mid, shorter).value, line);
        }
      }
    }
  }

  // ----- the items a line becomes

  /** A kind that is only hashed and counted. */
  predicate Plain(k: Hashed) {
    k.ShareHashes? || k.OtherHashed?
  }

  /** `line` is an accounting record of kind `k` whose row has canonical bytes `canonical`. */
  ghost predicate RowLine(w: World, line: string, k: Hashed, row: Json, canonical: Bytes) {
    && Parse(w, line).Ok? && Parse(w, line).value.row == row
    && w.kind(Parse(w, line).value.kind) == Accounting(k)
    && w.canonical(row) == Ok(canonical)
  }

  lemma FeedTwice(st: State, k: Hashed, n: nat, blob: Bytes, more: Bytes)
    ensures Feed(Feed(st, k, n, blob), k, 1, more) == Feed(st, k, n + 1, blob + more)
  {
    var once, twice := Feed(Feed(st, k, n, blob), k, 1, more), Feed(st, k, n + 1, blob + more);
    assert (At(st.fed, k, []) + blob) + more == At(st.fed, k, []) + (blob + more);
    assert once.fed == twice.fed && once.counts == twice.counts;
  }

  lemma RowsStart(w: World, line: string, k: Hashed, row: Json, canonical: Bytes)
    requires RowLine(w, line, k, row, canonical) && Plain(k)
    ensures Stands(w, RowsEntry(k, 1, canonical + [NEWLINE]), line)
  {
  }

  lemma RowsGrow(w: World, line: string, k: Hashed, row: Json, canonical: Bytes, n: nat, blob: Bytes)
    requires RowLine(w, line, k, row, canonical) && Plain(k)
    ensures Extends(w, RowsEntry(k, n, blob), RowsEntry(k, n + 1, blob + canonical + [NEWLINE]), line)
  {
    var shorter, longer := RowsEntry(k, n, blob), RowsEntry(k, n + 1, blob + canonical + [NEWLINE]);
    forall st
      ensures ExtendsAt(w, st, shorter, longer, line)
    {
      FeedTwice(st, k, n, blob, canonical + [NEWLINE]);
      assert blob + canonical + [NEWLINE] == blob + (canonical + [NEWLINE]);
    }
  }

  /** `_fast_share` */
  predicate FastShare(row: Json) {
    && row.Obj?
    && ShareSeq in row.fields && row.fields[ShareSeq].Int?
    && Accepted in row.fields && (row.fields[Accepted].Int? || row.fields[Accepted].Bool?)
  }

  function Sequence(row: Json): int
    requires FastShare(row)
  {
    row.fields[ShareSeq].i
  }

  function Flag(row: Json): int
    requires FastShare(row)
  {
    match row.fields[Accepted]
    case Int(i) => i
    case Bool(b) => if b then 1 else 0
  }

  lemma SharesStart(w: World, line: string, row: Json, canonical: Bytes)
    requires RowLine(w, line, Shares, row, canonical) && FastShare(row)
    ensures Stands(w, SharesEntry(1, canonical + [NEWLINE], Sequence(row), Sequence(row), Flag(row)), line)
  {
    assert IntOf(w, row.fields[Accepted]) == Ok(Flag(row));
  }

  /** A run may grow by a share whose sequence is above its last: the summary would have accepted
      that share after the run. */
  lemma SharesGrow(w: World, line: string, row: Json, canonical: Bytes, n: nat, blob: Bytes, first: int, last: int,
      accepted: int)
    requires RowLine(w, line, Shares, row, canonical) && FastShare(row) && last < Sequence(row)
    ensures Extends(w, SharesEntry(n, blob, first, last, accepted),
                    SharesEntry(n + 1, blob + canonical + [NEWLINE], first, Sequence(row), accepted + Flag(row)), line)
  {
    var shorter := SharesEntry(n, blob, first, last, accepted);
    var longer := SharesEntry(n + 1, blob + canonical + [NEWLINE], first, Sequence(row), accepted + Flag(row));
    forall st
      ensures ExtendsAt(w, st, shorter, longer, line)
    {
      ShareAfterRun(w, st, line, row, canonical, n, blob, first, last, accepted);
    }
  }

  lemma ShareAfterRun(w: World, st: State, line: string, row: Json, canonical: Bytes, n: nat, blob: Bytes, first: int,
      last: int, accepted: int)
    requires RowLine(w, line, Shares, row, canonical) && FastShare(row) && last < Sequence(row)
    ensures ShareRun(w, st, n + 1, blob + canonical + [NEWLINE], first, Sequence(row), accepted + Flag(row))
         == match ShareRun(w, st, n, blob, first, last, accepted)
            case Ok(mid) => Line(w, mid, line)
            case Err(e) => Err(e)
  {
    var mid := ShareRun(w, st, n, blob, first, last, accepted);
    if mid.Ok? {
      FeedTwice(st, Shares, n, blob, canonical + [NEWLINE]);
      assert blob + canonical + [NEWLINE] == blob + (canonical + [NEWLINE]);
      var fed := Feed(mid.value, Shares, 1, canonical + [NEWLINE]);
      assert fed.shares == ShareState(Int(last), st.shares.accepted + accepted);
      assert Le(w, Int(Sequence(row)), Int(last)) == Ok(false);
      assert IntOf(w, row.fields[Accepted]) == Ok(Flag(row));
      assert ShareRow(w, fed.shares, row) == Ok(ShareState(Int(Sequence(row)), fed.shares.accepted + Flag(row)));
    }
  }

  /** `_share_fields` */
  function ShareFields(row: Json): Json {
    if !row.Obj? then row
    else Obj(map f | f in row.fields && f in {ShareSeq, Accepted} :: row.fields[f])
  }

  lemma SlowShare(w: World, line: string, row: Json, canonical: Bytes)
    requires RowLine(w, line, Shares, row, canonical)
    ensures Stands(w, RecordEntry(Parse(w, line).value.kind, ShareFields(row), Some(canonical)), line)
  {
    assert Item(ShareFields(row), ShareSeq) == Item(row, ShareSeq);
    assert Item(ShareFields(row), Accepted) == Item(row, Accepted);
    forall sh
      ensures ShareRow(w, sh, ShareFields(row)) == ShareRow(w, sh, row)
    {
    }
  }

  lemma WholeRow(w: World, line: string, k: Hashed, row: Json, canonical: Bytes)
    requires RowLine(w, line, k, row, canonical)
    ensures Stands(w, RecordEntry(Parse(w, line).value.kind, row, Some(canonical)), line)
  {
  }

  lemma WholeRecord(w: World, line: string)
    requires Parse(w, line).Ok?
    ensures Stands(w, RecordEntry(Parse(w, line).value.kind, Parse(w, line).value.row, None), line)
  {
  }

  /** The error a worker meets on a line before it has a record to give: parsing, or the lookup
      of a kind no dict can hold. */
  function ParseError(w: World, line: string): Option<Error> {
    match Parse(w, line)
    case Err(e) => Some(e)
    case Ok(p) => if w.kind(p.kind).UnhashableKind? then Some(Unhashable(w.kind(p.kind).tag)) else None
  }

  lemma DeferredError(w: World, line: string)
    requires ParseError(w, line).Some?
    ensures Stands(w, ErrorEntry(ParseError(w, line).value), line)
    ensures forall st :: Line(w, st, line).Err?
  {
  }

  /** An item that is an error refuses whatever the state. */
  lemma {:induction false} ErrorRefuses(w: World, st: State, items: seq<Entry>, k: nat)
    requires NoSerial(items) && k < |items| && items[k].ErrorEntry?
    ensures Replay(w, st, items).Err?
    decreases |items|
  {
    if k > 0 && Apply(w, st, items[0]).Ok? {
      ErrorRefuses(w, Apply(w, st, items[0]).value, items[1..], k - 1);
    }
  }

  /** After a line no state accepts, the rest of the range changes nothing. */
  lemma RestUnread(w: World, items: seq<Entry>, before: seq<string>, line: string, rest: seq<string>)
    requires Represents(w, items, before + [line]) && forall st :: Line(w, st, line).Err?
    ensures Represents(w, items, before + [line] + rest)
  {
    forall st
      ensures Lines(w, st, before + [line] + rest) == Lines(w, st, before + [line])
    {
      LinesAppend(w, st, before, [line]);
      if Lines(w, st, before).Ok? {
        OneLine(w, Lines(w, st, before).value, line);
      }
      LinesAppend(w, st, before + [line], rest);
    }
  }

  // ----- what a worker makes of its lines

  /** The items so far, and the run that is being grown. */
  datatype Work = Work(items: seq<Entry>, run: Option<Entry>)

  const EMPTY := Work([], None)

  function Flushed(x: Work): seq<Entry> {
    x.items + if x.run.Some? then [x.run.value] else []
  }

  function WithRecord(x: Work, entry: Entry): Work {
    Work(Flushed(x) + [entry], None)
  }

  function WithRow(x: Work, k: Hashed, canonical: Bytes): Work {
    if x.run.Some? && x.run.value.RowsEntry? && x.run.value.of == k then
      x.(run := Some(RowsEntry(k, x.run.value.count + 1, x.run.value.blob + canonical + [NEWLINE])))
    else Work(Flushed(x), Some(RowsEntry(k, 1, canonical + [NEWLINE])))
  }

  /** A share run grows while its sequences rise. */
  function WithShare(x: Work, row: Json, canonical: Bytes): Work
    requires FastShare(row)
  {
    if GoesOn(x, row) then
      var run := x.run.value;
      x.(run := Some(SharesEntry(run.count + 1, run.blob + canonical + [NEWLINE], run.first, Sequence(row),
                                 run.accepted + Flag(row))))
    else Work(Flushed(x), Some(SharesEntry(1, canonical + [NEWLINE], Sequence(row), Sequence(row), Flag(row))))
  }

  function WithAccounting(x: Work, kind: Json, k: Hashed, row: Json, canonical: Bytes): Work {
    if k.Blocks? || k.ActiveCarry? || k.Candidates? then WithRecord(x, RecordEntry(kind, row, Some(canonical)))
    else if k.Shares? then
      if FastShare(row) then WithShare(x, row, canonical)
      else WithRecord(x, RecordEntry(kind, ShareFields(row), Some(canonical)))
    else WithRow(x, k, canonical)
  }

  /** A line became an item, or its error ends the range, or the range must be read serially. */
  datatype LineOutcome = Added(now: Work) | Stopped(items: seq<Entry>) | GaveUp

  function WithLine(w: World, x: Work, line: string): LineOutcome {
    var error := ParseError(w, line);
    if error.Some? then
      if !OwnRefusal(error.value) || !w.pickles(error.value) then GaveUp
      else Stopped(Flushed(x) + [ErrorEntry(error.value)])
    else
      var p := Parse(w, line).value;
      if !w.kind(p.kind).Accounting? then Added(WithRecord(x, RecordEntry(p.kind, p.row, None)))
      else
        match w.canonical(p.row)
        case Err(_) => GaveUp
        case Ok(canonical) => Added(WithAccounting(x, p.kind, w.kind(p.kind).of, p.row, canonical))
  }

  /** The lines read, and the items, of a range from line `i` on. */
  function WithLines(w: World, x: Work, lines: seq<string>, i: nat): (nat, seq<Entry>)
    requires i <= |lines|
    decreases |lines| - i
  {
    if i == |lines| then (i, Flushed(x))
    else
      match WithLine(w, x, lines[i])
      case Added(now) => WithLines(w, now, lines, i + 1)
      case Stopped(items) => (i + 1, items)
      case GaveUp => (i + 1, SERIAL)
  }

  function RangeItems(w: World, range: Bytes): (nat, seq<Entry>) {
    if Decode(range).None? then (0, SERIAL) else WithLines(w, EMPTY, FileLines(range), 0)
  }

  // ----- it stands for the lines

  /** Runs are of the kinds that have them. */
  predicate Sound(x: Work) {
    && NoSerial(x.items)
    && (x.run.Some? ==> x.run.value.SharesEntry? || (x.run.value.RowsEntry? && Plain(x.run.value.of)))
  }

  lemma RowExtends(w: World, items: seq<Entry>, k: Hashed, n: nat, blob: Bytes, row: Json, canonical: Bytes,
      line: string, lines: seq<string>)
    requires NoSerial(items) && Represents(w, items + [RowsEntry(k, n, blob)], lines)
    requires Plain(k) && RowLine(w, line, k, row, canonical)
    ensures Represents(w, items + [RowsEntry(k, n + 1, blob + canonical + [NEWLINE])], lines + [line])
  {
    RowsGrow(w, line, k, row, canonical, n, blob);
    ExtendItem(w, items, lines, RowsEntry(k, n, blob), RowsEntry(k, n + 1, blob + canonical + [NEWLINE]), line);
  }

  lemma RowFlushed(x: Work, k: Hashed, canonical: Bytes)
    requires Sound(x) && Plain(k)
    ensures Sound(WithRow(x, k, canonical))
    ensures if x.run.Some? && x.run.value.RowsEntry? && x.run.value.of == k then
              && Flushed(x) == x.items + [RowsEntry(k, x.run.value.count, x.run.value.blob)]
              && Flushed(WithRow(x, k, canonical))
                 == x.items + [RowsEntry(k, x.run.value.count + 1, x.run.value.blob + canonical + [NEWLINE])]
            else Flushed(WithRow(x, k, canonical)) == Flushed(x) + [RowsEntry(k, 1, canonical + [NEWLINE])]
  {
  }

  lemma RowBegins(w: World, items: seq<Entry>, k: Hashed, row: Json, canonical: Bytes, line: string, lines: seq<string>)
    requires Plain(k) && RowLine(w, line, k, row, canonical) && Represents(w, items, lines)
    ensures Represents(w, items + [RowsEntry(k, 1, canonical + [NEWLINE])], lines + [line])
  {
    RowsStart(w, line, k, row, canonical);
    AddItem(w, items, lines, RowsEntry(k, 1, canonical + [NEWLINE]), line);
  }

  lemma RowAdded(w: World, x: Work, k: Hashed, row: Json, canonical: Bytes, line: string, lines: seq<string>)
    requires Sound(x) && Plain(k) && RowLine(w, line, k, row, canonical) && Represents(w, Flushed(x), lines)
    ensures Represents(w, Flushed(WithRow(x, k, canonical)), lines + [line])
  {
    RowFlushed(x, k, canonical);
    var before, after := Flushed(x), Flushed(WithRow(x, k, canonical));
    if x.run.Some? && x.run.value.RowsEntry? && x.run.value.of == k {
      var run := x.run.value;
      SameItems(w, before, x.items + [RowsEntry(k, run.count, run.blob)], lines);
      RowExtends(w, x.items, k, run.count, run.blob, row, canonical, line, lines);
      SameItems(w, x.items + [RowsEntry(k, run.count + 1, run.blob + canonical + [NEWLINE])], after, lines + [line]);
    } else {
      RowBegins(w, before, k, row, canonical, line, lines);
      SameItems(w, before + [RowsEntry(k, 1, canonical + [NEWLINE])], after, lines + [line]);
    }
  }

  lemma SameItems(w: World, items: seq<Entry>, same: seq<Entry>, lines: seq<string>)
    requires items == same && Represents(w, items, lines)
    ensures Represents(w, same, lines)
  {
  }

  lemma ShareExtends(w: World, items: seq<Entry>, n: nat, blob: Bytes, first: int, last: int, accepted: int,
      row: Json, canonical: Bytes, line: string, lines: seq<string>)
    requires NoSerial(items) && Represents(w, items + [SharesEntry(n, blob, first, last, accepted)], lines)
    requires FastShare(row) && RowLine(w, line, Shares, row, canonical) && last < Sequence(row)
    ensures Represents(w, items + [SharesEntry(n + 1, blob + canonical + [NEWLINE], first, Sequence(row),
                                               accepted + Flag(row))], lines + [line])
  {
    SharesGrow(w, line, row, canonical, n, blob, first, last, accepted);
    ExtendItem(w, items, lines, SharesEntry(n, blob, first, last, accepted),
               SharesEntry(n + 1, blob + canonical + [NEWLINE], first, Sequence(row), accepted + Flag(row)), line);
  }

  lemma ShareBegins(w: World, items: seq<Entry>, row: Json, canonical: Bytes, line: string, lines: seq<string>)
    requires FastShare(row) && RowLine(w, line, Shares, row, canonical) && Represents(w, items, lines)
    ensures Represents(w, items + [SharesEntry(1, canonical + [NEWLINE], Sequence(row), Sequence(row), Flag(row))],
                       lines + [line])
  {
    SharesStart(w, line, row, canonical);
    AddItem(w, items, lines, SharesEntry(1, canonical + [NEWLINE], Sequence(row), Sequence(row), Flag(row)), line);
  }

  /** The next share goes on with the run. */
  predicate GoesOn(x: Work, row: Json)
    requires FastShare(row)
  {
    x.run.Some? && x.run.value.SharesEntry? && x.run.value.last < Sequence(row)
  }

  lemma ShareFlushed(x: Work, row: Json, canonical: Bytes)
    requires Sound(x) && FastShare(row)
    ensures Sound(WithShare(x, row, canonical))
    ensures GoesOn(x, row) ==>
              Flushed(WithShare(x, row, canonical))
              == x.items + [SharesEntry(x.run.value.count + 1, x.run.value.blob + canonical + [NEWLINE],
                                        x.run.value.first, Sequence(row), x.run.value.accepted + Flag(row))]
    ensures !GoesOn(x, row) ==>
              Flushed(WithShare(x, row, canonical))
              == Flushed(x) + [SharesEntry(1, canonical + [NEWLINE], Sequence(row), Sequence(row), Flag(row))]
  {
  }

  lemma RunFlushed(x: Work)
    requires x.run.Some? && x.run.value.SharesEntry?
    ensures var run := x.run.value;
            Flushed(x) == x.items + [SharesEntry(run.count, run.blob, run.first, run.last, run.accepted)]
  {
  }

  lemma ShareAdded(w: World, x: Work, row: Json, canonical: Bytes, line: string, lines: seq<string>)
    requires Sound(x) && FastShare(row) && RowLine(w, line, Shares, row, canonical) && Represents(w, Flushed(x), lines)
    ensures Represents(w, Flushed(WithShare(x, row, canonical)), lines + [line])
  {
    if GoesOn(x, row) {
      ShareGrown(w, x, row, canonical, line, lines);
    } else {
      ShareFlushed(x, row, canonical);
      ShareBegins(w, Flushed(x), row, canonical, line, lines);
    }
  }

  lemma ShareGrown(w: World, x: Work, row: Json, canonical: Bytes, line: string, lines: seq<string>)
    requires Sound(x) && FastShare(row) && RowLine(w, line, Shares, row, canonical) && Represents(w, Flushed(x), lines)
    requires GoesOn(x, row)
    ensures Represents(w, Flushed(WithShare(x, row, canonical)), lines + [line])
  {
    ShareFlushed(x, row, canonical);
    RunFlushed(x);
    var run := x.run.value;
    SameItems(w, Flushed(x), x.items + [SharesEntry(run.count, run.blob, run.first, run.last, run.accepted)], lines);
    ShareExtends(w, x.items, run.count, run.blob, run.first, run.last, run.accepted, row, canonical, line, lines);
  }

  lemma RecordAdded(w: World, x: Work, entry: Entry, line: string, lines: seq<string>)
    requires Sound(x) && Represents(w, Flushed(x), lines) && Stands(w, entry, line)
    ensures Sound(WithRecord(x, entry)) && Represents(w, Flushed(WithRecord(x, entry)), lines + [line])
  {
    AddItem(w, Flushed(x), lines, entry, line);
    assert Flushed(WithRecord(x, entry)) == Flushed(x) + [entry];
  }

  lemma AccountingAdded(w: World, x: Work, line: string, lines: seq<string>)
    requires Sound(x) && Represents(w, Flushed(x), lines)
    requires Parse(w, line).Ok? && w.kind(Parse(w, line).value.kind).Accounting?
    requires w.canonical(Parse(w, line).value.row).Ok?
    ensures var p := Parse(w, line).value;
            var now := WithAccounting(x, p.kind, w.kind(p.kind).of, p.row, w.canonical(p.row).value);
            Sound(now) && Represents(w, Flushed(now), lines + [line])
  {
    var p := Parse(w, line).value;
    var k, canonical := w.kind(p.kind).of, w.canonical(p.row).value;
    if k.Blocks? || k.ActiveCarry? || k.Candidates? {
      WholeRow(w, line, k, p.row, canonical);
      RecordAdded(w, x, RecordEntry(p.kind, p.row, Some(canonical)), line, lines);
    } else if !k.Shares? {
      RowFlushed(x, k, canonical);
      RowAdded(w, x, k, p.row, canonical, line, lines);
    } else if FastShare(p.row) {
      ShareFlushed(x, p.row, canonical);
      ShareAdded(w, x, p.row, canonical, line, lines);
    } else {
      SlowShare(w, line, p.row, canonical);
      RecordAdded(w, x, RecordEntry(p.kind, ShareFields(p.row), Some(canonical)), line, lines);
    }
  }

  /** Adding one line keeps the items standing for the lines read; an error that ends the range is one
      every state meets. */
  lemma LineAdded(w: World, x: Work, line: string, lines: seq<string>)
    requires Sound(x) && Represents(w, Flushed(x), lines)
    ensures WithLine(w, x, line).Added? ==>
              Sound(WithLine(w, x, line).now) && Represents(w, Flushed(WithLine(w, x, line).now), lines + [line])
    ensures WithLine(w, x, line).Stopped? ==>
              Represents(w, WithLine(w, x, line).items, lines + [line]) && forall st :: Line(w, st, line).Err?
  {
    if ParseError(w, line).Some? {
      DeferredError(w, line);
      AddItem(w, Flushed(x), lines, ErrorEntry(ParseError(w, line).value), line);
    } else if w.kind(Parse(w, line).value.kind).Accounting? {
      if w.canonical(Parse(w, line).value.row).Ok? {
        AccountingAdded(w, x, line, lines);
      }
    } else {
      var p := Parse(w, line).value;
      WholeRecord(w, line);
      RecordAdded(w, x, RecordEntry(p.kind, p.row, None), line, lines);
    }
  }

  /** What a range parser promises of its `count` of lines and its `items`. */
  ghost predicate RangeRead(w: World, lines: seq<string>, count: nat, items: seq<Entry>) {
    items == SERIAL ||
    (Represents(w, items, lines) && (count == |lines| || exists k :: 0 <= k < |items| && items[k].ErrorEntry?))
  }

  lemma {:induction false} LinesAdded(w: World, x: Work, lines: seq<string>, i: nat)
    requires i <= |lines| && Sound(x) && Represents(w, Flushed(x), lines[..i])
    ensures RangeRead(w, lines, WithLines(w, x, lines, i).0, WithLines(w, x, lines, i).1)
    decreases |lines| - i
  {
    if i == |lines| {
      assert lines[..i] == lines;
    } else {
      LineAdded(w, x, lines[i], lines[..i]);
      assert lines[..i + 1] == lines[..i] + [lines[i]];
      match WithLine(w, x, lines[i])
      case Added(now) =>
        LinesAdded(w, now, lines, i + 1);
      case Stopped(items) =>
        RestUnread(w, items, lines[..i], lines[i], lines[i + 1..]);
        assert lines == lines[..i] + [lines[i]] + lines[i + 1..];
        assert items[|items| - 1].ErrorEntry?;
      case GaveUp =>
    }
  }

  /** The worker cannot hand over what it meets on the line: an error that is not its own kind of refusal or
      cannot be pickled, or an accounting row without canonical bytes. */
  predicate GivesUp(w: World, line: string) {
    match Parse(w, line)
    case Err(e) => e.Escaping? || !w.pickles(e)
    case Ok(p) =>
      match w.kind(p.kind)
      case UnhashableKind(tag) => !w.pickles(Unhashable(tag))
      case Accounting(_) => w.canonical(p.row).Err?
      case _ => false
  }

  /** A refusal that it can hand over ends its range. */
  predicate Refuses(w: World, line: string) {
    !GivesUp(w, line) && (Parse(w, line).Err? || w.kind(Parse(w, line).value.kind).UnhashableKind?)
  }

  lemma OutcomeExactly(w: World, x: Work, line: string)
    requires Sound(x)
    ensures WithLine(w, x, line).GaveUp? <==> GivesUp(w, line)
    ensures WithLine(w, x, line).Stopped? <==> Refuses(w, line)
    ensures WithLine(w, x, line).Added? ==> Sound(WithLine(w, x, line).now)
    ensures WithLine(w, x, line).Stopped? ==> WithLine(w, x, line).items != SERIAL
  {
    if WithLine(w, x, line).Stopped? {
      assert WithLine(w, x, line).items[|Flushed(x)|].ErrorEntry?;
    }
  }

  /** The worker gives up on the line, having read those before it. */
  predicate GivesUpAt(w: World, lines: seq<string>, from: nat, k: nat) {
    && from <= k < |lines| && GivesUp(w, lines[k])
    && forall j :: from <= j < k ==> !GivesUp(w, lines[j]) && !Refuses(w, lines[j])
  }

  lemma SoundItems(x: Work)
    requires Sound(x)
    ensures Flushed(x) != SERIAL
  {
    if x.items != [] {
      assert Flushed(x)[0] == x.items[0];
    }
    assert SERIAL[0].SerialEntry?;
  }

  /** The line is the first that the worker gives up on or refuses. */
  predicate EndsAt(w: World, lines: seq<string>, from: nat, k: nat) {
    && from <= k < |lines| && (GivesUp(w, lines[k]) || Refuses(w, lines[k]))
    && forall j :: from <= j < k ==> !GivesUp(w, lines[j]) && !Refuses(w, lines[j])
  }

  /** The worker reads up to the first line that it gives up on or refuses, or all of them. */
  lemma {:induction false} LinesRead(w: World, x: Work, lines: seq<string>, i: nat, k: nat)
    requires i <= |lines| && Sound(x)
    ensures EndsAt(w, lines, i, k) ==> WithLines(w, x, lines, i).0 == k + 1
    ensures (forall j :: i <= j < |lines| ==> !GivesUp(w, lines[j]) && !Refuses(w, lines[j])) ==>
              WithLines(w, x, lines, i).0 == |lines|
    decreases |lines| - i
  {
    if i < |lines| {
      OutcomeExactly(w, x, lines[i]);
      if WithLine(w, x, lines[i]).Added? {
        LinesRead(w, WithLine(w, x, lines[i]).now, lines, i + 1, k);
      }
    }
  }

  lemma {:induction false} LinesSerial(w: World, x: Work, lines: seq<string>, i: nat)
    requires i <= |lines| && Sound(x)
    ensures WithLines(w, x, lines, i).1 == SERIAL <==> exists k: nat :: GivesUpAt(w, lines, i, k)
    decreases |lines| - i
  {
    if i < |lines| {
      OutcomeExactly(w, x, lines[i]);
      if WithLine(w, x, lines[i]).Added? {
        LinesSerial(w, WithLine(w, x, lines[i]).now, lines, i + 1);
        var next := i + 1;
        if k: nat :| GivesUpAt(w, lines, i, k) {
          assert GivesUpAt(w, lines, next, k);
        }
        if k: nat :| GivesUpAt(w, lines, next, k) {
          assert GivesUpAt(w, lines, i, k);
        }
      } else if WithLine(w, x, lines[i]).GaveUp? {
        assert GivesUpAt(w, lines, i, i);
      }
    } else {
      SoundItems(x);
    }
  }

  /** A range is left to be read serially exactly when it does not decode, or the worker comes to a line that it
      gives up on. */
  lemma SerialExactly(w: World, range: Bytes)
    ensures RangeItems(w, range).1 == SERIAL
            <==> Decode(range).None? || exists k: nat :: GivesUpAt(w, FileLines(range), 0, k)
    ensures Decode(range).Some? ==>
              forall k: nat :: EndsAt(w, FileLines(range), 0, k) ==> RangeItems(w, range).0 == k + 1
  {
    if Decode(range).Some? {
      forall k: nat | EndsAt(w, FileLines(range), 0, k)
        ensures RangeItems(w, range).0 == k + 1
      {
        LinesRead(w, EMPTY, FileLines(range), 0, k);
      }
      LinesSerial(w, EMPTY, FileLines(range), 0);
    }
  }

  /** The items of a range that could be read stand for its lines. */
  lemma RangeStands(w: World, range: Bytes)
    ensures RangeItems(w, range).1 == SERIAL
            || (Decode(range).Some? && RangeRead(w, FileLines(range), RangeItems(w, range).0, RangeItems(w, range).1))
  {
    if Decode(range).Some? {
      assert FileLines(range)[..0] == [] && Flushed(EMPTY) == [];
      LinesAdded(w, EMPTY, FileLines(range), 0);
    }
  }

  // ----- the worker

  class Items {
    var items: seq<Entry>
    var kind: Option<Hashed>
    var blob: Bytes
    var count: nat
    var first: int
    var last: int
    var accepted: int

    constructor ()
      ensures Value() == EMPTY
    {
      items, kind, blob, count, first, last, accepted := [], None, [], 0, 0, 0, 0;
    }

    /** The items, and the run being grown as the item it would become. */
    function Value(): Work
      reads this
    {
      Work(items, match kind
                  case None => None
                  case Some(Shares) => Some(SharesEntry(count, blob, first, last, accepted))
                  case Some(k) => Some(RowsEntry(k, count, blob)))
    }

    method Flush()
      modifies this`items, this`kind
      ensures kind == None && items == Flushed(old(Value()))
    {
      if kind == Some(Shares) {
        items := items + [SharesEntry(count, blob, first, last, accepted)];
      } else if kind.Some? {
        items := items + [RowsEntry(kind.value, count, blob)];
      }
      kind := None;
    }

    method Append(k: Hashed, canonical: Bytes)
      modifies this`items, this`kind, this`blob, this`count
      ensures kind == Some(k)
      ensures old(kind) == Some(k) ==>
        items == old(items) && count == old(count) + 1 && blob == old(blob) + canonical + [NEWLINE]
      ensures old(kind) != Some(k) ==>
        items == Flushed(old(Value())) && count == 1 && blob == canonical + [NEWLINE]
    {
      if kind != Some(k) {
        Flush();
        kind, blob, count := Some(k), [], 0;
      }
      blob := blob + canonical;
      blob := blob + [NEWLINE];
      count := count + 1;
    }

    method AddHashed(k: Hashed, canonical: Bytes)
      requires Plain(k)
      modifies this
      ensures Value() == WithRow(old(Value()), k, canonical)
    {
      Append(k, canonical);
    }

    method AddShare(row: Json, canonical: Bytes)
      requires FastShare(row)
      modifies this
      ensures Value() == WithShare(old(Value()), row, canonical)
    {
      var sequence := Sequence(row);
      if kind == Some(Shares) && sequence <= last {
        Flush();
      }
      if kind != Some(Shares) {
        first, accepted := sequence, 0;
      }
      Append(Shares, canonical);
      last := sequence;
      accepted := accepted + Flag(row);
    }

    method AddRecord(k: Json, row: Json, canonical: Option<Bytes>)
      modifies this
      ensures Value() == WithRecord(old(Value()), RecordEntry(k, row, canonical))
    {
      Flush();
      items := items + [RecordEntry(k, row, canonical)];
    }

    method AddAccounting(kindName: Json, k: Hashed, row: Json, canonical: Bytes)
      modifies this
      ensures Value() == WithAccounting(old(Value()), kindName, k, row, canonical)
    {
      if k.Blocks? || k.ActiveCarry? || k.Candidates? {
        AddRecord(kindName, row, Some(canonical));
      } else if k.Shares? {
        if FastShare(row) {
          AddShare(row, canonical);
        } else {
          AddRecord(kindName, ShareFields(row), Some(canonical));
        }
      } else {
        AddHashed(k, canonical);
      }
    }

    /** What a worker does with its next line: what it gives up on or stops at, it does not keep. */
    method AddLine(w: World, line: string) returns (outcome: LineOutcome)
      modifies this
      ensures outcome == WithLine(w, old(Value()), line)
      ensures outcome.Added? ==> Value() == outcome.now
    {
      var error := ParseError(w, line);
      if error.Some? {
        if !OwnRefusal(error.value) || !w.pickles(error.value) {
          return GaveUp;
        }
        Flush();
        items := items + [ErrorEntry(error.value)];
        return Stopped(items);
      }
      var p := Parse(w, line).value;
      if !w.kind(p.kind).Accounting? {
        AddRecord(p.kind, p.row, None);
        return Added(Value());
      }
      var canonical := w.canonical(p.row);
      if canonical.Err? {
        return GaveUp;
      }
      AddAccounting(p.kind, w.kind(p.kind).of, p.row, canonical.value);
      outcome := Added(Value());
    }
  }

  /** `_parse_range`, once the range's bytes are read: `range` is None when reading them failed. */
  method ParseRange(w: World, range: Option<Bytes>) returns (count: nat, items: seq<Entry>)
    ensures (count, items) == if range.None? then (0, SERIAL) else RangeItems(w, range.value)
  {
    count := 0;
    if range.None? || Decode(range.value).None? {
      return 0, SERIAL;
    }
    var text := Decode(range.value).value;
    if '\r' in text {
      ReplacementsAreUniversal(text);
      text := FoldCr(FoldCrLf(text));
    } else {
      NothingToReplace(text);
    }
    var lines := TextLinesOf(text);
    var results := new Items();
    for i := 0 to |lines|
      invariant count == i && fresh(results)
      invariant RangeItems(w, range.value) == WithLines(w, results.Value(), lines, i)
    {
      count := count + 1;
      var outcome := results.AddLine(w, lines[i]);
      if outcome.GaveUp? {
        return count, SERIAL;
      }
      if outcome.Stopped? {
        return count, outcome.items;
      }
    }
    results.Flush();
    items := results.items;
  }
}
