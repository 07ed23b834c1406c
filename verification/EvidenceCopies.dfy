/** What sending a worker's results to another process changes (scripts/prism-recovery-evidence.py):
    a NaN arrives as a new object at every place, and a dict or a set finds a NaN only by the object.
    Where no NaN is a key, the copies do what the originals do. */
module EvidenceCopies {
  import opened Common
  import opened Results
  import opened TextLines
  import opened EvidenceJson
  import opened EvidenceSummary
  import opened EvidenceRange

  function CopiedEntry(item: Entry, place: seq<Place>): Entry {
    match item
    case RecordEntry(kind, row, canonical) =>
      RecordEntry(Copied(kind, place + [In(KindField)]), Copied(row, place + [In(RowField)]), canonical)
    case _ => item
  }

  /** The items of the n-th result, as the summarizing process receives them. */
  function CopiedItems(items: seq<Entry>, n: nat): seq<Entry> {
    seq(|items|, i requires 0 <= i < |items| => CopiedEntry(items[i], [Nth(n), Nth(i)]))
  }

  // ----- the rows whose copies do the same

  predicate NoNaNIn(row: Json, f: Field) {
    row.Obj? && f in row.fields ==> !HasNaN(row.fields[f])
  }

  predicate CleanFinding(finding: Json) {
    NoNaNIn(finding, CarrySeq) && NoNaNIn(finding, BlockHash)
  }

  predicate CleanFindings(integrity: Json) {
    integrity.Obj? && Mismatches in integrity.fields && integrity.fields[Mismatches].Arr? ==>
      forall k :: 0 <= k < |integrity.fields[Mismatches].items| ==> CleanFinding(integrity.fields[Mismatches].items[k])
  }

  predicate CleanCarry(row: Json) {
    && NoNaNIn(row, BlockHeight) && NoNaNIn(row, CarrySeq) && NoNaNIn(row, BlockHash)
    && NoNaNIn(row, Program) && NoNaNIn(row, Recipient) && NoNaNIn(row, OrderKey)
  }

  /** No NaN is where the summary compares by key or in chain order. */
  predicate CleanRow(w: World, kind: Json, row: Json) {
    match w.kind(kind)
    case Accounting(Blocks) => NoNaNIn(row, BlockHash)
    case Accounting(ActiveCarry) => CleanCarry(row)
    case Integrity => CleanFindings(row)
    case _ => true
  }

  predicate CleanLine(w: World, line: string) {
    Parse(w, line).Ok? ==> CleanRow(w, Parse(w, line).value.kind, Parse(w, line).value.row)
  }

  /** A line without a NaN in its row is clean, whatever its kind. */
  lemma NoNaNIsClean(w: World, line: string)
    requires Parse(w, line).Ok? ==> !HasNaN(Parse(w, line).value.row)
    ensures CleanLine(w, line)
  {
    if Parse(w, line).Ok? {
      var row := Parse(w, line).value.row;
      assert forall f :: NoNaNIn(row, f);
      if row.Obj? && Mismatches in row.fields && row.fields[Mismatches].Arr? {
        forall k | 0 <= k < |row.fields[Mismatches].items|
          ensures CleanFinding(row.fields[Mismatches].items[k])
        {
          assert !HasNaN(row.fields[Mismatches]) && !HasNaN(row.fields[Mismatches].items[k]);
        }
      }
    }
  }

  predicate CleanEntry(w: World, item: Entry) {
    item.RecordEntry? ==>
      CleanRow(w, item.kind, item.row) && (item.canonical.None? ==> !w.kind(item.kind).Accounting?)
  }

  predicate CleanEntries(w: World, items: seq<Entry>) {
    forall k :: 0 <= k < |items| ==> CleanEntry(w, items[k])
  }

  // ----- the worker's items are clean

  lemma CleanAdded(w: World, x: Work, line: string)
    requires CleanEntries(w, Flushed(x)) && CleanLine(w, line) && (x.run.Some? ==> !x.run.value.RecordEntry?)
    ensures match WithLine(w, x, line)
            case Added(now) => CleanEntries(w, Flushed(now)) && (now.run.Some? ==> !now.run.value.RecordEntry?)
            case Stopped(items) => CleanEntries(w, items)
            case GaveUp => true
  {
    assert forall k :: 0 <= k < |x.items| ==> Flushed(x)[k] == x.items[k];
  }

  lemma {:induction false} CleanRange(w: World, x: Work, lines: seq<string>, i: nat)
    requires i <= |lines| && CleanEntries(w, Flushed(x)) && (x.run.Some? ==> !x.run.value.RecordEntry?)
    requires forall k :: 0 <= k < |lines| ==> CleanLine(w, lines[k])
    ensures CleanEntries(w, WithLines(w, x, lines, i).1)
    decreases |lines| - i
  {
    if i < |lines| {
      CleanAdded(w, x, lines[i]);
      if WithLine(w, x, lines[i]).Added? {
        CleanRange(w, WithLine(w, x, lines[i]).now, lines, i + 1);
      }
    }
  }

  // ----- values that are shown the same

  lemma SameItem(a: Json, b: Json, f: Field)
    requires Shown(a) == Shown(b)
    ensures Item(a, f).Ok? <==> Item(b, f).Ok?
    ensures Item(a, f).Ok? ==> Shown(Item(a, f).value) == Shown(Item(b, f).value)
    ensures Item(a, f).Err? ==> Item(a, f) == Item(b, f)
    ensures Get(a, f).Ok? <==> Get(b, f).Ok?
    ensures Get(a, f).Ok? ==> Shown(Get(a, f).value) == Shown(Get(b, f).value)
    ensures Get(a, f).Err? ==> Get(a, f) == Get(b, f)
  {
    if a.Obj? {
      assert Shown(a).fields.Keys == Shown(b).fields.Keys;
      if f in a.fields {
        assert f in Shown(b).fields && Shown(a).fields[f] == Shown(b).fields[f];
      } else {
        assert f !in Shown(b).fields;
      }
    }
  }

  lemma SameCleanItem(a: Json, b: Json, f: Field)
    requires Shown(a) == Shown(b) && NoNaNIn(a, f)
    ensures Item(a, f) == Item(b, f) && Get(a, f) == Get(b, f)
  {
    SameItem(a, b, f);
    if a.Obj? && f in a.fields {
      ShownDetermines(a.fields[f], Item(b, f).value);
    }
  }

  lemma SameAmount(w: World, a: Json, b: Json, f: Field)
    requires Shown(a) == Shown(b)
    ensures Amount(w, a, f) == Amount(w, b, f)
  {
    SameItem(a, b, f);
  }

  lemma SameOffChain(w: World, a: Json, b: Json, prior: int, gross: int, onchain: int)
    requires Shown(a) == Shown(b)
    ensures OffChain(w, a, prior, gross, onchain) == OffChain(w, b, prior, gross, onchain)
  {
    SameAmount(w, a, b, PriorBalance);
    SameAmount(w, a, b, CandidateBalance);
    SameAmount(w, a, b, CarryBalance);
  }

  lemma SameKind(w: World, a: Json, b: Json)
    requires Shown(a) == Shown(b)
    ensures w.kind(a) == w.kind(b)
  {
  }

  // ----- rows that are shown the same

  lemma SameBlock(w: World, ch: Chains, a: Json, b: Json)
    requires Shown(a) == Shown(b) && NoNaNIn(a, BlockHash)
    ensures BlockRow(w, ch, a) == BlockRow(w, ch, b)
  {
    SameItem(a, b, AsIssuedAudit);
    SameCleanItem(a, b, BlockHash);
  }

  lemma SameCarryOf(w: World, a: Json, b: Json)
    requires Shown(a) == Shown(b) && CleanCarry(a)
    ensures CarryOf(w, a) == CarryOf(w, b)
  {
    SameCleanItem(a, b, Program);
    SameCleanItem(a, b, Recipient);
    SameCleanItem(a, b, OrderKey);
    SameCleanItem(a, b, BlockHash);
    SameAmount(w, a, b, GrossAmount);
    SameAmount(w, a, b, OnchainAmount);
  }

  lemma SameBreaks(w: World, ch: Chains, a: Json, b: Json, c: Carry)
    requires Shown(a) == Shown(b) && CleanCarry(a)
    ensures CarryBreaks(w, ch, a, c) == CarryBreaks(w, ch, b, c)
  {
    SameOffChain(w, a, b, At(ch.byProgram, c.program, 0), c.gross, c.onchain);
    SameOffChain(w, a, b, At(ch.byLabel, c.paid, 0), c.gross, c.onchain);
    SameCleanItem(a, b, CarrySeq);
  }

  lemma SameStart(w: World, ch: Chains, a: Json, b: Json, canonical: Bytes)
    requires Shown(a) == Shown(b) && CleanCarry(a)
    ensures CarryStart(w, ch, a, canonical) == CarryStart(w, ch, b, canonical)
  {
    SameCleanItem(a, b, BlockHeight);
    SameCleanItem(a, b, CarrySeq);
  }

  lemma SameCarry(w: World, ch: Chains, a: Json, b: Json, canonical: Bytes)
    requires Shown(a) == Shown(b) && CleanCarry(a)
    ensures CarryRow(w, ch, a, canonical) == CarryRow(w, ch, b, canonical)
  {
    SameStart(w, ch, a, b, canonical);
    SameCarryOf(w, a, b);
    if CarryStart(w, ch, a, canonical).Ok? && CarryOf(w, a).Ok? {
      SameBreaks(w, CarryStart(w, ch, a, canonical).value, a, b, CarryOf(w, a).value);
    }
  }

  predicate SameShares(a: ShareState, b: ShareState) {
    a.accepted == b.accepted && Shown(a.last) == Shown(b.last) && IsNumber(a.last)
  }

  lemma SameShare(w: World, a: ShareState, b: ShareState, row: Json, copy: Json)
    requires SameShares(a, b) && Shown(row) == Shown(copy)
    ensures ShareRow(w, a, row).Ok? ==>
              ShareRow(w, b, copy).Ok? && SameShares(ShareRow(w, a, row).value, ShareRow(w, b, copy).value)
    ensures ShareRow(w, a, row).Err? ==> ShareRow(w, b, copy) == ShareRow(w, a, row)
  {
    SameItem(row, copy, ShareSeq);
    SameItem(row, copy, Accepted);
    if Item(row, ShareSeq).Ok? {
      assert Le(w, Item(row, ShareSeq).value, a.last) == Le(w, Item(copy, ShareSeq).value, b.last);
    }
    if Item(row, Accepted).Ok? {
      assert IntOf(w, Item(row, Accepted).value) == IntOf(w, Item(copy, Accepted).value);
    }
  }

  lemma SameCandidate(ca: CandidateState, a: Json, b: Json)
    requires Shown(a) == Shown(b)
    ensures CandidateRow(ca, a) == CandidateRow(ca, b)
  {
    SameItem(a, b, StateField);
  }

  // ----- states that are shown the same

  /** The states are equal but for which object a NaN is, in what the summary only keeps to report. */
  predicate Alike(a: State, b: State) {
    && a.fed == b.fed && a.counts == b.counts && a.complete == b.complete
    && a.chains == b.chains && a.candidates == b.candidates && SameShares(a.shares, b.shares)
    && Shown(a.integrity) == Shown(b.integrity) && CleanFindings(a.integrity)
    && a.deferred.Some? == b.deferred.Some?
    && (a.deferred.Some? ==> Shown(a.deferred.value) == Shown(b.deferred.value))
  }

  function ShownError(e: Error): Error {
    if e.ValueError? && e.why.UnknownKind? then ValueError(UnknownKind(Shown(e.why.kind))) else e
  }

  predicate AlikeSteps(a: Result<State, Error>, b: Result<State, Error>) {
    match a
    case Ok(st) => b.Ok? && Alike(st, b.value)
    case Err(e) => b.Err? && ShownError(e) == ShownError(b.error)
  }

  lemma CheckedAlike(w: World, a: State, b: State, kind: Hashed, row: Json, copy: Json, canonical: Bytes)
    requires Alike(a, b) && Shown(row) == Shown(copy)
    requires (kind.Blocks? ==> NoNaNIn(row, BlockHash)) && (kind.ActiveCarry? ==> CleanCarry(row))
    ensures AlikeSteps(Checked(w, a, kind, row, canonical), Checked(w, b, kind, copy, canonical))
  {
    match kind
    case Blocks => SameBlock(w, a.chains, row, copy);
    case ActiveCarry => SameCarry(w, a.chains, row, copy, canonical);
    case Shares => SameShare(w, a.shares, b.shares, row, copy);
    case Candidates => SameCandidate(a.candidates, row, copy);
    case _ =>
  }

  /** An item and a copy of it. */
  predicate IsCopy(item: Entry, copy: Entry) {
    if item.RecordEntry? then
      && copy.RecordEntry? && copy.canonical == item.canonical
      && Shown(copy.kind) == Shown(item.kind) && Shown(copy.row) == Shown(item.row)
    else copy == item
  }

  lemma AccountingAlike(w: World, a: State, b: State, k: Hashed, row: Json, copy: Json, canonical: Bytes)
    requires Alike(a, b) && Shown(row) == Shown(copy)
    requires (k.Blocks? ==> NoNaNIn(row, BlockHash)) && (k.ActiveCarry? ==> CleanCarry(row))
    ensures AlikeSteps(AccountingRow(w, a, k, row, Some(canonical)), AccountingRow(w, b, k, copy, Some(canonical)))
  {
    CheckedAlike(w, Feed(a, k, 1, canonical + [NEWLINE]), Feed(b, k, 1, canonical + [NEWLINE]), k, row, copy,
                 canonical);
  }

  /** A record that is not an accounting one. */
  lemma OtherAlike(w: World, a: State, b: State, kind: Json, row: Json, kindCopy: Json, copy: Json)
    requires Alike(a, b) && Shown(kind) == Shown(kindCopy) && Shown(row) == Shown(copy)
    requires CleanRow(w, kind, row) && !w.kind(kind).Accounting?
    ensures AlikeSteps(Record(w, a, kind, row, None), Record(w, b, kindCopy, copy, None))
  {
    SameKind(w, kind, kindCopy);
  }

  lemma RecordAlike(w: World, a: State, b: State, item: Entry, copy: Entry)
    requires item.RecordEntry? && Alike(a, b) && IsCopy(item, copy) && CleanEntry(w, item)
    ensures AlikeSteps(Record(w, a, item.kind, item.row, item.canonical),
                       Record(w, b, copy.kind, copy.row, copy.canonical))
  {
    SameKind(w, item.kind, copy.kind);
    if w.kind(item.kind).Accounting? {
      AccountingAlike(w, a, b, w.kind(item.kind).of, item.row, copy.row, item.canonical.value);
    } else {
      OtherAlike(w, a, b, item.kind, item.row, copy.kind, copy.row);
    }
  }

  lemma ApplyAlike(w: World, a: State, b: State, item: Entry, copy: Entry)
    requires !item.SerialEntry? && Alike(a, b) && IsCopy(item, copy) && CleanEntry(w, item)
    ensures AlikeSteps(Apply(w, a, item), Apply(w, b, copy))
  {
    if item.RecordEntry? {
      RecordAlike(w, a, b, item, copy);
    } else if item.SharesEntry? {
      SharesAlike(w, a, b, item.count, item.blob, item.first, item.last, item.accepted);
    }
  }

  lemma SharesAlike(w: World, a: State, b: State, count: nat, blob: Bytes, first: int, last: int, accepted: int)
    requires Alike(a, b)
    ensures AlikeSteps(ShareRun(w, a, count, blob, first, last, accepted),
                       ShareRun(w, b, count, blob, first, last, accepted))
  {
    assert Le(w, Int(first), a.shares.last) == Le(w, Int(first), b.shares.last);
  }

  /** Replaying copies of clean items is replaying the items. */
  lemma {:induction false} ReplayAlike(w: World, a: State, b: State, items: seq<Entry>, copies: seq<Entry>)
    requires Alike(a, b) && NoSerial(items) && CleanEntries(w, items)
    requires |copies| == |items| && forall k :: 0 <= k < |items| ==> IsCopy(items[k], copies[k])
    ensures NoSerial(copies) && AlikeSteps(Replay(w, a, items), Replay(w, b, copies))
    decreases |items|
  {
    if items != [] {
      ApplyAlike(w, a, b, items[0], copies[0]);
      if Apply(w, a, items[0]).Ok? {
        ReplayAlike(w, Apply(w, a, items[0]).value, Apply(w, b, copies[0]).value, items[1..], copies[1..]);
      }
    }
  }

  lemma CopiesAreCopies(items: seq<Entry>, n: nat)
    ensures |CopiedItems(items, n)| == |items|
    ensures forall k :: 0 <= k < |items| ==> IsCopy(items[k], CopiedItems(items, n)[k])
    ensures CopiedItems(items, n) == SERIAL <==> items == SERIAL
    ensures NoSerial(CopiedItems(items, n)) <==> NoSerial(items)
  {
    forall k | 0 <= k < |items|
      ensures IsCopy(items[k], CopiedItems(items, n)[k])
    {
      if items[k].RecordEntry? {
        ShownCopied(items[k].kind, [Nth(n), Nth(k)] + [In(KindField)]);
        ShownCopied(items[k].row, [Nth(n), Nth(k)] + [In(RowField)]);
      }
    }
    if CopiedItems(items, n) == SERIAL {
      assert CopiedItems(items, n)[0] == SerialEntry;
      assert items[0] == SerialEntry;
    }
    if NoSerial(CopiedItems(items, n)) {
      forall k | 0 <= k < |items|
        ensures !items[k].SerialEntry?
      {
        assert !CopiedItems(items, n)[k].SerialEntry?;
      }
    }
  }

  // ----- the report

  predicate AlikeAt(a: seq<Json>, b: seq<Json>, k: int) {
    0 <= k < |a| && k < |b| ==> Shown(a[k]) == Shown(b[k]) && (a[k].Obj? <==> b[k].Obj?)
  }

  predicate SameFindings(a: seq<Json>, b: seq<Json>) {
    |a| == |b| && forall k :: 0 <= k < |a| ==> AlikeAt(a, b, k) && CleanFinding(a[k])
  }

  lemma SameFinding(marked: set<Json>, breaks: set<Json>, a: Json, b: Json)
    requires Shown(a) == Shown(b) && CleanFinding(a)
    ensures a.Obj? ==> b.Obj? && AsIssued(marked, a) == AsIssued(marked, b)
    ensures Explained(breaks, a) == Explained(breaks, b)
  {
    SameCleanItem(a, b, CarrySeq);
    SameCleanItem(a, b, BlockHash);
  }

  lemma {:induction false} SameCounts(marked: set<Json>, breaks: set<Json>, a: seq<Json>, b: seq<Json>)
    requires SameFindings(a, b) && forall k :: 0 <= k < |a| ==> a[k].Obj? && b[k].Obj?
    ensures CountAsIssued(marked, a) == CountAsIssued(marked, b)
    ensures CountUnexplained(breaks, a) == CountUnexplained(breaks, b)
  {
    if a != [] {
      assert AlikeAt(a, b, 0);
      SameFinding(marked, breaks, a[0], b[0]);
      forall k | 0 <= k < |a[1..]|
        ensures AlikeAt(a[1..], b[1..], k)
      {
        assert AlikeAt(a, b, k + 1);
      }
      SameCounts(marked, breaks, a[1..], b[1..]);
    }
  }

  lemma ShownItems(a: seq<Json>, b: seq<Json>)
    requires Shown(Arr(a)) == Shown(Arr(b))
    ensures |a| == |b|
    ensures forall k :: 0 <= k < |a| ==> Shown(a[k]) == Shown(b[k])
  {
    var x, y := Shown(Arr(a)).items, Shown(Arr(b)).items;
    assert |x| == |a| && |y| == |b|;
    forall k | 0 <= k < |a|
      ensures Shown(a[k]) == Shown(b[k])
    {
      assert x[k] == Shown(a[k]) && y[k] == Shown(b[k]);
    }
  }

  lemma ShownObject(a: Json, b: Json)
    requires Shown(a) == Shown(b)
    ensures a.Obj? <==> b.Obj?
  {
  }

  lemma ListedAlike(x: Json, y: Json)
    requires Shown(x) == Shown(y) && x.Arr?
    ensures y.Arr? && |x.items| == |y.items| && forall k :: 0 <= k < |x.items| ==> AlikeAt(x.items, y.items, k)
  {
    assert y.Arr?;
    var a, b := x.items, y.items;
    ShownItems(a, b);
    forall k | 0 <= k < |a|
      ensures AlikeAt(a, b, k)
    {
      ShownObject(a[k], b[k]);
    }
  }

  lemma FindingsAlike(a: State, b: State)
    requires Alike(a, b)
    ensures Findings(a).Ok? ==> Findings(b).Ok? && SameFindings(Findings(a).value, Findings(b).value)
    ensures Findings(a).Err? ==> Findings(b) == Findings(a)
  {
    if a.integrity.Obj? {
      SameItem(a.integrity, b.integrity, MismatchCount);
      SameItem(a.integrity, b.integrity, DriftCount);
      SameItem(a.integrity, b.integrity, CheckedRows);
      SameItem(a.integrity, b.integrity, Mismatches);
      var x, y := At(a.integrity.fields, Mismatches, Arr([])), At(b.integrity.fields, Mismatches, Arr([]));
      if x.Arr? {
        ListedAlike(x, y);
        ObjectsAlike(x.items, y.items);
      }
    }
  }

  lemma ObjectsAlike(a: seq<Json>, b: seq<Json>)
    requires |a| == |b| && forall k :: 0 <= k < |a| ==> AlikeAt(a, b, k)
    ensures (exists k :: 0 <= k < |a| && !a[k].Obj?) <==> (exists k :: 0 <= k < |b| && !b[k].Obj?)
  {
    if k :| 0 <= k < |a| && !a[k].Obj? {
      assert AlikeAt(a, b, k) && !b[k].Obj?;
    }
    if k :| 0 <= k < |b| && !b[k].Obj? {
      assert AlikeAt(a, b, k) && !a[k].Obj?;
    }
  }

  function ShownNote(note: Note): Note {
    match note
    case ClearedFindings(_) => note
    case DeferredHashes(cursor) => DeferredHashes(Shown(cursor))
  }

  /** The report as it is printed. */
  function ShownReport(r: Report): Report {
    r.(deferredHashes := if r.deferredHashes.Some? then Some(Shown(r.deferredHashes.value)) else None,
       lastShareSeq := Shown(r.lastShareSeq),
       integrity := Shown(r.integrity),
       notes := seq(|r.notes|, k requires 0 <= k < |r.notes| => ShownNote(r.notes[k])))
  }

  /** One report, or one refusal, but for which object a NaN is. */
  predicate SameOutcome(a: Result<Report, Error>, b: Result<Report, Error>) {
    match a
    case Ok(r) => b.Ok? && ShownReport(r) == ShownReport(b.value)
    case Err(e) => b.Err? && ShownError(e) == ShownError(b.error)
  }

  lemma IntegrityAlike(a: map<Field, Json>, b: map<Field, Json>)
    requires Shown(Obj(a)) == Shown(Obj(b))
    ensures Shown(Obj(a[MismatchCount := Int(0)][Mismatches := Arr([])]))
            == Shown(Obj(b[MismatchCount := Int(0)][Mismatches := Arr([])]))
  {
    var x, y := Shown(Obj(a[MismatchCount := Int(0)][Mismatches := Arr([])])).fields,
                Shown(Obj(b[MismatchCount := Int(0)][Mismatches := Arr([])])).fields;
    forall f
      ensures f in x <==> f in y
      ensures f in x ==> x[f] == y[f]
    {
      SameItem(Obj(a), Obj(b), f);
    }
    assert x == y;
  }

  lemma SummarizedAlike(w: World, a: State, b: State, findings: seq<Json>, copies: seq<Json>)
    requires Alike(a, b) && a.integrity.Obj? && b.integrity.Obj? && |findings| == |copies|
    ensures ShownReport(Summarized(w, a, findings)) == ShownReport(Summarized(w, b, copies))
  {
    IntegrityAlike(a.integrity.fields, b.integrity.fields);
    var x, y := ShownReport(Summarized(w, a, findings)), ShownReport(Summarized(w, b, copies));
    assert x.notes == y.notes;
  }

  lemma ReportAlike(w: World, a: State, b: State)
    requires Alike(a, b)
    ensures SameOutcome(ReportOf(w, a), ReportOf(w, b))
  {
    FindingsAlike(a, b);
    if Findings(a).Ok? {
      SameCounts(a.chains.marked, a.chains.labelBreaks, Findings(a).value, Findings(b).value);
      SummarizedAlike(w, a, b, Findings(a).value, Findings(b).value);
    }
  }

  // ----- lines checked in the summarizing process

  lemma LineAlike(w: World, a: State, b: State, line: string)
    requires Alike(a, b) && CleanLine(w, line)
    ensures AlikeSteps(Line(w, a, line), Line(w, b, line))
  {
    if Parse(w, line).Ok? {
      var p := Parse(w, line).value;
      if !w.kind(p.kind).Accounting? {
        OtherAlike(w, a, b, p.kind, p.row, p.kind, p.row);
      } else if w.canonical(p.row).Ok? {
        AccountingAlike(w, a, b, w.kind(p.kind).of, p.row, p.row, w.canonical(p.row).value);
      }
    }
  }
}
