/** An export that scripts/prism-recovery-evidence.py reports on with one job and refuses with two: two
    carry rows of one payout program, whose name is NaN. */
module EvidenceNaN {
  import opened Common
  import opened Results
  import opened TextLines
  import opened EvidenceJson
  import opened EvidenceSummary
  import opened EvidenceRange
  import opened EvidenceCopies
  import opened EvidenceFile

  predicate Has(row: Json, f: Field, v: Json) {
    row.Obj? && f in row.fields && row.fields[f] == v
  }

  /** An active carry row that pays 5, none of it on chain, after a balance of `prior`. */
  predicate IsRow(row: Json, height: int, prior: int, program: Object) {
    && Has(row, BlockHeight, Int(height)) && Has(row, CarrySeq, Int(height)) && Has(row, BlockHash, Null)
    && Has(row, Program, NaN(program)) && Has(row, Recipient, Null) && Has(row, OrderKey, Null)
    && IsPaid(row, prior)
  }

  predicate IsPaid(row: Json, prior: int) {
    && Has(row, GrossAmount, Int(5)) && Has(row, OnchainAmount, Int(0)) && Has(row, PriorBalance, Int(prior))
    && Has(row, CandidateBalance, Int(prior + 5)) && Has(row, CarryBalance, Int(prior + 5))
  }

  /** An integrity report without findings. */
  predicate IsCleanReport(row: Json, rows: int) {
    && Has(row, MismatchCount, Int(0)) && Has(row, DriftCount, Int(0)) && Has(row, CheckedRows, Int(rows))
    && Has(row, Mismatches, Arr([]))
  }

  predicate HoldsRow(w: World, line: string, height: int, prior: int) {
    && Parse(w, line).Ok? && w.kind(Parse(w, line).value.kind) == Accounting(ActiveCarry)
    && IsRow(Parse(w, line).value.row, height, prior, Module) && w.canonical(Parse(w, line).value.row).Ok?
  }

  /** The two rows, a clean integrity report and the completion marker. */
  predicate IsExport(w: World, lines: seq<string>) {
    && |lines| == 4 && HoldsRow(w, lines[0], 1, 0) && HoldsRow(w, lines[1], 2, 5)
    && Parse(w, lines[2]).Ok? && w.kind(Parse(w, lines[2]).value.kind) == Integrity
    && IsCleanReport(Parse(w, lines[2]).value.row, 2)
    && Parse(w, lines[3]).Ok? && w.kind(Parse(w, lines[3]).value.kind) == Complete
    && Parse(w, lines[3]).value.row == Bool(true)
  }

  lemma CopiedField(row: Json, f: Field, v: Json, place: seq<Place>)
    requires Has(row, f, v)
    ensures Has(Copied(row, place), f, Copied(v, place + [In(f)]))
  {
  }

  lemma CopiedRow(row: Json, height: int, prior: int, program: Object, place: seq<Place>)
    requires IsRow(row, height, prior, program)
    ensures IsRow(Copied(row, place), height, prior, Copy(place + [In(Program)]))
  {
    CopiedField(row, BlockHeight, Int(height), place);
    CopiedField(row, CarrySeq, Int(height), place);
    CopiedField(row, BlockHash, Null, place);
    CopiedField(row, Program, NaN(program), place);
    CopiedField(row, Recipient, Null, place);
    CopiedField(row, OrderKey, Null, place);
    CopiedPaid(row, prior, place);
  }

  lemma CopiedPaid(row: Json, prior: int, place: seq<Place>)
    requires IsPaid(row, prior)
    ensures IsPaid(Copied(row, place), prior)
  {
    CopiedField(row, GrossAmount, Int(5), place);
    CopiedField(row, OnchainAmount, Int(0), place);
    CopiedField(row, PriorBalance, Int(prior), place);
    CopiedField(row, CandidateBalance, Int(prior + 5), place);
    CopiedField(row, CarryBalance, Int(prior + 5), place);
  }

  lemma CopiedReport(row: Json, rows: int, place: seq<Place>)
    requires IsCleanReport(row, rows)
    ensures IsCleanReport(Copied(row, place), rows)
  {
    CopiedField(row, MismatchCount, Int(0), place);
    CopiedField(row, DriftCount, Int(0), place);
    CopiedField(row, CheckedRows, Int(rows), place);
    CopiedField(row, Mismatches, Arr([]), place);
    assert Copied(Arr([]), place + [In(Mismatches)]) == Arr([]);
  }

  // ----- the rows, whichever objects their programs are

  /** After a row, or none: what the next row's checks read. */
  predicate Paid(st: State, height: int, rows: nat, balances: map<Json, int>, breaks: nat) {
    && st.integrity.Null? && !st.complete && st.deferred.None? && At(st.counts, ActiveCarry, 0) == rows
    && st.chains.marked == {} && st.chains.byProgram == balances && st.chains.legacyBreaks == breaks
    && (st.chains.order == None || st.chains.order == Some((Int(height), Int(height))))
  }

  /** The keys and amounts of such a row. */
  lemma RowRead(w: World, row: Json, height: int, prior: int, program: Object)
    requires IsRow(row, height, prior, program)
    ensures CarryOf(w, row) == Ok(Carry(NaN(program), (Null, Null, NaN(program)), 5, 0, Null))
  {
    assert Amount(w, row, GrossAmount) == Ok(5) && Amount(w, row, OnchainAmount) == Ok(0);
    assert Item(row, Program) == Ok(NaN(program)) && Item(row, Recipient) == Ok(Null)
           && Item(row, OrderKey) == Ok(Null);
    assert Item(row, BlockHash) == Ok(Null);
  }

  lemma RowOffChain(w: World, row: Json, prior: int, had: int)
    requires IsPaid(row, prior)
    ensures OffChain(w, row, had, 5, 0) == Ok(had != prior)
  {
    assert Amount(w, row, PriorBalance) == Ok(prior) && Amount(w, row, CandidateBalance) == Ok(prior + 5)
           && Amount(w, row, CarryBalance) == Ok(prior + 5);
  }

  lemma RowStarts(w: World, ch: Chains, row: Json, height: int, prior: int, program: Object, canonical: Bytes)
    requires IsRow(row, height, prior, program)
    requires ch.order == None || ch.order == Some((Int(height - 1), Int(height - 1)))
    ensures CarryStart(w, ch, row, canonical)
            == Ok(ch.(started := true, head := w.sha(ch.head + canonical), order := Some((Int(height), Int(height)))))
  {
    assert Item(row, BlockHeight) == Ok(Int(height)) && Item(row, CarrySeq) == Ok(Int(height));
    if ch.order.Some? {
      assert !Eq(w, Int(height), Int(height - 1));
    }
  }

  lemma RowBreaks(w: World, ch: Chains, row: Json, height: int, prior: int, program: Object, c: Carry)
    requires IsRow(row, height, prior, program) && ch.marked == {}
    requires c == Carry(NaN(program), (Null, Null, NaN(program)), 5, 0, Null)
    ensures var r := CarryBreaks(w, ch, row, c);
            && r.Ok? && r.value.marked == {} && r.value.order == ch.order && r.value.byProgram == ch.byProgram
            && r.value.legacyBreaks == ch.legacyBreaks + if At(ch.byProgram, NaN(program), 0) == prior then 0 else 1
  {
    RowOffChain(w, row, prior, At(ch.byProgram, c.program, 0));
    RowOffChain(w, row, prior, At(ch.byLabel, c.paid, 0));
    assert Item(row, CarrySeq) == Ok(Int(height));
  }

  lemma RowOnUnmarked(w: World, ch: Chains, row: Json, height: int, prior: int, program: Object, canonical: Bytes)
    requires IsRow(row, height, prior, program)
    requires ch.marked == {} && (ch.order == None || ch.order == Some((Int(height - 1), Int(height - 1))))
    ensures var r := CarryRow(w, ch, row, canonical);
            var had := At(ch.byProgram, NaN(program), 0);
            && r.Ok? && r.value.marked == {} && r.value.order == Some((Int(height), Int(height)))
            && r.value.byProgram == ch.byProgram[NaN(program) := had + 5]
            && r.value.legacyBreaks == ch.legacyBreaks + if had == prior then 0 else 1
  {
    RowStarts(w, ch, row, height, prior, program, canonical);
    RowRead(w, row, height, prior, program);
    RowBreaks(w, CarryStart(w, ch, row, canonical).value, row, height, prior, program, CarryOf(w, row).value);
  }

  lemma RowPaid(w: World, st: State, kind: Json, row: Json, height: int, prior: int, program: Object,
      known: Option<Bytes>, rows: nat, balances: map<Json, int>, breaks: nat)
    requires w.kind(kind) == Accounting(ActiveCarry) && IsRow(row, height, prior, program)
    requires Paid(st, height - 1, rows, balances, breaks) && (known.None? ==> w.canonical(row).Ok?)
    ensures var r := Record(w, st, kind, row, known);
            var had := At(balances, NaN(program), 0);
            r.Ok? && Paid(r.value, height, rows + 1, balances[NaN(program) := had + 5],
                          breaks + if had == prior then 0 else 1)
  {
    var canonical := if known.Some? then known.value else w.canonical(row).value;
    var fed := Feed(st, ActiveCarry, 1, canonical + [NEWLINE]);
    RowOnUnmarked(w, fed.chains, row, height, prior, program, canonical);
    assert AccountingRow(w, st, ActiveCarry, row, known) == Checked(w, fed, ActiveCarry, row, canonical);
  }

  lemma FirstRow(w: World, kind: Json, row: Json, program: Object, known: Option<Bytes>)
    requires w.kind(kind) == Accounting(ActiveCarry) && IsRow(row, 1, 0, program)
    requires known.None? ==> w.canonical(row).Ok?
    ensures var r := Record(w, INITIAL, kind, row, known); r.Ok? && Paid(r.value, 1, 1, map[NaN(program) := 5], 0)
  {
    RowPaid(w, INITIAL, kind, row, 1, 0, program, known, 0, map[], 0);
  }

  /** The second row is on the chain of its own program only. */
  lemma SecondRow(w: World, st: State, first: Object, kind: Json, row: Json, program: Object, known: Option<Bytes>)
    requires w.kind(kind) == Accounting(ActiveCarry) && IsRow(row, 2, 5, program)
    requires Paid(st, 1, 1, map[NaN(first) := 5], 0) && (known.None? ==> w.canonical(row).Ok?)
    ensures var r := Record(w, st, kind, row, known); r.Ok? && Settled(r.value, if first == program then 0 else 1)
  {
    RowPaid(w, st, kind, row, 2, 5, program, known, 1, map[NaN(first) := 5], 0);
  }

  /** Both rows are counted, and this many broke their program's chain. */
  predicate Settled(st: State, breaks: nat) {
    && st.integrity.Null? && !st.complete && st.deferred.None? && At(st.counts, ActiveCarry, 0) == 2
    && st.chains.legacyBreaks == breaks
  }

  lemma Reported(w: World, st: State, kind: Json, report: Json, marker: Json, breaks: nat)
    requires Settled(st, breaks) && IsCleanReport(report, 2)
    requires w.kind(kind) == Integrity && w.kind(marker) == Complete
    ensures var checked := Record(w, st, kind, report, None);
            && checked.Ok? && !checked.value.complete
            && var last := Record(w, checked.value, marker, Bool(true), None);
               && last.Ok?
               && if breaks == 0 then ReportOf(w, last.value).Ok?
                  else ReportOf(w, last.value) == Err(ValueError(LegacyBreaks(breaks)))
  {
    var last := Record(w, Record(w, st, kind, report, None).value, marker, Bool(true), None).value;
    assert last.integrity == report && last.complete;
    assert Findings(last) == Ok([]);
  }

  // ----- one job, and two

  lemma SerialLine(w: World, lines: seq<string>, i: nat)
    requires i < |lines| && Lines(w, INITIAL, lines[..i]).Ok? && Parse(w, lines[i]).Ok?
    ensures var st, p := Lines(w, INITIAL, lines[..i]).value, Parse(w, lines[i]).value;
            !st.complete ==> Lines(w, INITIAL, lines[..i + 1]) == Record(w, st, p.kind, p.row, None)
  {
    NextLine(w, lines, i);
  }

  lemma SerialRows(w: World, lines: seq<string>)
    requires IsExport(w, lines)
    ensures Lines(w, INITIAL, lines[..2]).Ok? && Settled(Lines(w, INITIAL, lines[..2]).value, 0)
  {
    var p, q := Parse(w, lines[0]).value, Parse(w, lines[1]).value;
    assert lines[..0] == [];
    SerialLine(w, lines, 0);
    FirstRow(w, p.kind, p.row, Module, None);
    SerialLine(w, lines, 1);
    SecondRow(w, Lines(w, INITIAL, lines[..1]).value, Module, q.kind, q.row, Module, None);
  }

  /** One job reports. */
  lemma SerialReports(w: World, lines: seq<string>)
    requires IsExport(w, lines)
    ensures Lines(w, INITIAL, lines).Ok? && ReportOf(w, Lines(w, INITIAL, lines).value).Ok?
  {
    var report, marker := Parse(w, lines[2]).value, Parse(w, lines[3]).value;
    SerialRows(w, lines);
    Reported(w, Lines(w, INITIAL, lines[..2]).value, report.kind, report.row, marker.kind, 0);
    SerialLine(w, lines, 2);
    SerialLine(w, lines, 3);
    assert lines[..4] == lines;
  }

  /** What a worker makes of one of the lines. */
  function EntryOf(w: World, line: string): Entry {
    match Parse(w, line)
    case Err(e) => ErrorEntry(e)
    case Ok(p) =>
      RecordEntry(p.kind, p.row, match w.canonical(p.row)
                                 case Ok(canonical) => if w.kind(p.kind).Accounting? then Some(canonical) else None
                                 case Err(_) => None)
  }

  predicate GoesWhole(w: World, line: string) {
    && Parse(w, line).Ok?
    && var p := Parse(w, line).value;
       match w.kind(p.kind)
       case Accounting(k) => k.ActiveCarry? && w.canonical(p.row).Ok?
       case UnhashableKind(_) => false
       case _ => true
  }

  lemma WholeLine(w: World, items: seq<Entry>, line: string)
    requires GoesWhole(w, line)
    ensures WithLine(w, Work(items, None), line) == Added(Work(items + [EntryOf(w, line)], None))
  {
    assert Flushed(Work(items, None)) == items;
  }

  function Entries(w: World, lines: seq<string>): seq<Entry> {
    seq(|lines|, k requires 0 <= k < |lines| => EntryOf(w, lines[k]))
  }

  lemma {:induction false} WholeLines(w: World, lines: seq<string>, i: nat)
    requires i <= |lines| && forall k :: 0 <= k < |lines| ==> GoesWhole(w, lines[k])
    ensures WithLines(w, Work(Entries(w, lines)[..i], None), lines, i) == (|lines|, Entries(w, lines))
    decreases |lines| - i
  {
    var items := Entries(w, lines);
    if i < |lines| {
      WholeLine(w, items[..i], lines[i]);
      assert items[..i + 1] == items[..i] + [EntryOf(w, lines[i])];
      WholeLines(w, lines, i + 1);
    } else {
      assert items[..i] == items;
      assert Flushed(Work(items, None)) == items;
    }
  }

  lemma NextEntry(w: World, st: State, items: seq<Entry>, i: nat)
    requires NoSerial(items) && i < |items|
    ensures NoSerial(items[..i]) && NoSerial(items[..i + 1])
    ensures Replay(w, st, items[..i]).Ok? ==>
              Replay(w, st, items[..i + 1]) == Apply(w, Replay(w, st, items[..i]).value, items[i])
  {
    assert items[..i + 1] == items[..i] + [items[i]];
    ReplayAppend(w, st, items[..i], [items[i]]);
    if Replay(w, st, items[..i]).Ok? {
      ReplayOne(w, Replay(w, st, items[..i]).value, items[i]);
    }
  }

  lemma NextRecord(w: World, items: seq<Entry>, i: nat)
    requires NoSerial(items) && i < |items| && items[i].RecordEntry? && NoSerial(items[..i])
    requires Replay(w, INITIAL, items[..i]).Ok? && !Replay(w, INITIAL, items[..i]).value.complete
    ensures NoSerial(items[..i + 1])
    ensures Replay(w, INITIAL, items[..i + 1])
            == Record(w, Replay(w, INITIAL, items[..i]).value, items[i].kind, items[i].row, items[i].canonical)
  {
    NextEntry(w, INITIAL, items, i);
  }

  /** The place of the n-th program among the copies. */
  function ProgramAt(n: nat): Object {
    Copy([Nth(0), Nth(n), In(RowField), In(Program)])
  }

  predicate IsRowCopy(w: World, c: Entry, height: int, prior: int, n: nat) {
    c.RecordEntry? && w.kind(c.kind) == Accounting(ActiveCarry) && IsRow(c.row, height, prior, ProgramAt(n))
    && c.canonical.Some?
  }

  predicate IsReportCopy(w: World, c: Entry) {
    c.RecordEntry? && w.kind(c.kind) == Integrity && IsCleanReport(c.row, 2) && c.canonical.None?
  }

  predicate IsMarkerCopy(w: World, c: Entry) {
    c.RecordEntry? && w.kind(c.kind) == Complete && c.row == Bool(true) && c.canonical.None?
  }

  predicate CopiesOf(w: World, items: seq<Entry>) {
    && |items| == 4 && IsRowCopy(w, items[0], 1, 0, 0) && IsRowCopy(w, items[1], 2, 5, 1)
    && IsReportCopy(w, items[2]) && IsMarkerCopy(w, items[3])
  }

  lemma CopiedKind(w: World, kind: Json, place: seq<Place>)
    ensures w.kind(Copied(kind, place)) == w.kind(kind)
  {
    ShownCopied(kind, place);
    SameKind(w, Copied(kind, place), kind);
  }

  lemma RowCopied(w: World, line: string, height: int, prior: int, n: nat)
    requires HoldsRow(w, line, height, prior)
    ensures IsRowCopy(w, CopiedEntry(EntryOf(w, line), [Nth(0), Nth(n)]), height, prior, n)
  {
    var p := Parse(w, line).value;
    CopiedKind(w, p.kind, [Nth(0), Nth(n)] + [In(KindField)]);
    CopiedRow(p.row, height, prior, Module, [Nth(0), Nth(n)] + [In(RowField)]);
    assert [Nth(0), Nth(n)] + [In(RowField)] + [In(Program)] == [Nth(0), Nth(n), In(RowField), In(Program)];
  }

  lemma OthersCopied(w: World, report: string, marker: string)
    requires Parse(w, report).Ok? && w.kind(Parse(w, report).value.kind) == Integrity
    requires IsCleanReport(Parse(w, report).value.row, 2)
    requires Parse(w, marker).Ok? && w.kind(Parse(w, marker).value.kind) == Complete
    requires Parse(w, marker).value.row == Bool(true)
    ensures IsReportCopy(w, CopiedEntry(EntryOf(w, report), [Nth(0), Nth(2)]))
    ensures IsMarkerCopy(w, CopiedEntry(EntryOf(w, marker), [Nth(0), Nth(3)]))
  {
    CopiedKind(w, Parse(w, report).value.kind, [Nth(0), Nth(2)] + [In(KindField)]);
    CopiedReport(Parse(w, report).value.row, 2, [Nth(0), Nth(2)] + [In(RowField)]);
    CopiedKind(w, Parse(w, marker).value.kind, [Nth(0), Nth(3)] + [In(KindField)]);
  }

  lemma CopiesMade(w: World, lines: seq<string>)
    requires IsExport(w, lines)
    ensures CopiesOf(w, CopiedItems(Entries(w, lines), 0))
  {
    RowCopied(w, lines[0], 1, 0, 0);
    RowCopied(w, lines[1], 2, 5, 1);
    OthersCopied(w, lines[2], lines[3]);
  }

  lemma CopiedFirst(w: World, items: seq<Entry>)
    requires CopiesOf(w, items)
    ensures NoSerial(items) && NoSerial(items[..1]) && Replay(w, INITIAL, items[..1]).Ok?
    ensures Paid(Replay(w, INITIAL, items[..1]).value, 1, 1, map[NaN(ProgramAt(0)) := 5], 0)
  {
    assert items[..0] == [];
    NextRecord(w, items, 0);
    FirstRow(w, items[0].kind, items[0].row, ProgramAt(0), items[0].canonical);
  }

  lemma CopiedRows(w: World, items: seq<Entry>)
    requires CopiesOf(w, items)
    ensures NoSerial(items) && NoSerial(items[..2]) && Replay(w, INITIAL, items[..2]).Ok?
    ensures Settled(Replay(w, INITIAL, items[..2]).value, 1)
  {
    CopiedFirst(w, items);
    NextRecord(w, items, 1);
    assert ProgramAt(0).place[1] != ProgramAt(1).place[1];
    SecondRow(w, Replay(w, INITIAL, items[..1]).value, ProgramAt(0), items[1].kind, items[1].row, ProgramAt(1),
              items[1].canonical);
  }

  lemma CopiesEnd(w: World, items: seq<Entry>)
    requires CopiesOf(w, items) && NoSerial(items) && NoSerial(items[..2]) && Replay(w, INITIAL, items[..2]).Ok?
    requires Settled(Replay(w, INITIAL, items[..2]).value, 1)
    ensures Replay(w, INITIAL, items).Ok?
    ensures ReportOf(w, Replay(w, INITIAL, items).value) == Err(ValueError(LegacyBreaks(1)))
  {
    Reported(w, Replay(w, INITIAL, items[..2]).value, items[2].kind, items[2].row, items[3].kind, 1);
    NextRecord(w, items, 2);
    NextRecord(w, items, 3);
    assert items[..4] == items;
  }

  lemma CopiesRefused(w: World, items: seq<Entry>)
    requires CopiesOf(w, items)
    ensures NoSerial(items) && Replay(w, INITIAL, items).Ok?
    ensures ReportOf(w, Replay(w, INITIAL, items).value) == Err(ValueError(LegacyBreaks(1)))
  {
    CopiedRows(w, items);
    CopiesEnd(w, items);
  }

  lemma WorkerReads(w: World, data: Bytes)
    requires Decode(data).Some? && IsExport(w, FileLines(data))
    ensures RangeItems(w, data).1 == Entries(w, FileLines(data))
    ensures CopiesOf(w, CopiedItems(RangeItems(w, data).1, 0))
  {
    var lines := FileLines(data);
    assert forall k :: 0 <= k < |lines| ==> GoesWhole(w, lines[k]);
    assert Entries(w, lines)[..0] == [];
    WholeLines(w, lines, 0);
    CopiesMade(w, lines);
  }

  lemma OneRange(w: World, data: Bytes, chunk: nat, copies: seq<Entry>)
    requires chunk >= 1 && chunk >= |data| && copies == CopiedItems(RangeItems(w, data).1, 0)
    requires NoSerial(copies) && Replay(w, INITIAL, copies).Ok?
    ensures FeedRanges(w, INITIAL, data, 0, chunk, 0) == Some(Replay(w, INITIAL, copies).value)
  {
    assert data[0..|data|] == data && RangeEnd(data, chunk) == None;
  }

  /** The same file, read in one range: serially it is reported on, and from a worker's results it is
      refused, as one that breaks a chain. */
  lemma NaNProgramDiffers(w: World, data: Bytes, reader: Reader, chunk: nat, lookahead: nat)
    requires Decode(data).Some? && IsExport(w, FileLines(data)) && chunk >= 1 && chunk >= |data|
    requires Reads(data, lookahead, reader)
    ensures SerialSummary(w, reader).Ok?
    ensures FeedRanges(w, INITIAL, data, 0, chunk, 0).Some?
    ensures ReportOf(w, FeedRanges(w, INITIAL, data, 0, chunk, 0).value) == Err(ValueError(LegacyBreaks(1)))
  {
    SerialReports(w, FileLines(data));
    WorkerReads(w, data);
    var copies := CopiedItems(RangeItems(w, data).1, 0);
    CopiesRefused(w, copies);
    OneRange(w, data, chunk, copies);
  }
}
