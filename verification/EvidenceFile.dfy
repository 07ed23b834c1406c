/** Summarizing an export in parallel (`_ranges`, `_summarize_ranges`, `summarize_file`): whatever
    the host does, the outcome is the serial summarizer's, for every file without a NaN in a key. */
module EvidenceFile {
  import opened Common
  import opened Results
  import opened TextLines
  import opened EvidenceJson
  import opened EvidenceSummary
  import opened EvidenceRange
  import opened EvidenceCopies
  import EvidenceMeaning
  import Utf8

  // ----- cutting

  /** Where a range that starts at `start` ends: just after the first newline at or past
      `start + chunk`; None when there is none, and the range is open to the end of the file. */
  function RangeEnd(data: Bytes, from: nat): (end: Option<nat>)
    ensures end.Some? ==> from < end.value <= |data| && data[end.value - 1] == NEWLINE
    ensures forall i :: from <= i < (if end.Some? then end.value - 1 else |data|) ==> data[i] != NEWLINE
    decreases |data| - from
  {
    if from >= |data| then None
    else if data[from] == NEWLINE then Some(from + 1)
    else RangeEnd(data, from + 1)
  }

  function StopOf(data: Bytes, end: Option<nat>): nat {
    if end.Some? then end.value else |data|
  }

  /** The bytes of the ranges, in order. */
  function Ranges(data: Bytes, start: nat, chunk: nat): seq<Bytes>
    requires start <= |data| && chunk >= 1
    decreases |data| - start
  {
    match RangeEnd(data, start + chunk)
    case None => [data[start..]]
    case Some(end) => [data[start..end]] + Ranges(data, end, chunk)
  }

  function Glue(ranges: seq<Bytes>): Bytes {
    if ranges == [] then [] else ranges[0] + Glue(ranges[1..])
  }

  predicate AllDecode(ranges: seq<Bytes>) {
    forall k :: 0 <= k < |ranges| ==> Decode(ranges[k]).Some?
  }

  /** The lines of each range in turn. */
  function LinesOfRanges(ranges: seq<Bytes>): seq<string>
    requires AllDecode(ranges)
  {
    if ranges == [] then [] else FileLines(ranges[0]) + LinesOfRanges(ranges[1..])
  }

  lemma SplitAt(data: Bytes, start: nat, end: nat)
    requires start <= end <= |data|
    ensures data[start..] == data[start..end] + data[end..]
  {
  }

  /** For any file and chunk size, the ranges are the file: nothing lost, doubled or moved. */
  lemma {:induction false} RangesPartition(data: Bytes, start: nat, chunk: nat)
    requires start <= |data| && chunk >= 1
    ensures Glue(Ranges(data, start, chunk)) == data[start..]
    decreases |data| - start
  {
    var end := RangeEnd(data, start + chunk);
    if end.Some? {
      RangesPartition(data, end.value, chunk);
      SplitAt(data, start, end.value);
      assert Ranges(data, start, chunk)[1..] == Ranges(data, end.value, chunk);
    } else {
      assert Ranges(data, start, chunk)[1..] == [];
    }
  }

  /** Nothing after the first `chunk` bytes of the range, but for its last byte if it has an end, is a newline. */
  predicate NoEarlierEnd(range: Bytes, chunk: nat, closed: bool) {
    forall i :: chunk <= i < |range| - (if closed then 1 else 0) ==> range[i] != NEWLINE
  }

  lemma FirstClosed(data: Bytes, start: nat, chunk: nat)
    requires start <= |data| && chunk >= 1
    ensures var end := RangeEnd(data, start + chunk);
            var first := data[start..StopOf(data, end)];
            (end.Some? ==> EndsWithNewline(first) && |first| > chunk) && NoEarlierEnd(first, chunk, end.Some?)
  {
  }

  /** Every range but the last ends just after a newline, the first one past its first `chunk` bytes; the last
      has no newline past those, unless it ends the file. */
  lemma {:induction false} RangesClosed(data: Bytes, start: nat, chunk: nat, k: nat)
    requires start <= |data| && chunk >= 1 && k < |Ranges(data, start, chunk)|
    ensures var ranges := Ranges(data, start, chunk);
            && (k + 1 < |ranges| ==> EndsWithNewline(ranges[k]) && |ranges[k]| > chunk)
            && NoEarlierEnd(ranges[k], chunk, k + 1 < |ranges|)
    decreases k
  {
    var end := RangeEnd(data, start + chunk);
    if k == 0 {
      FirstClosed(data, start, chunk);
    } else {
      assert Ranges(data, start, chunk)[1..] == Ranges(data, end.value, chunk);
      RangesClosed(data, end.value, chunk, k - 1);
    }
  }

  /** And decoding and splitting range by range gives the lines of the whole file, or fails where
      the whole file fails to decode. */
  lemma {:induction false} RangesLines(data: Bytes, start: nat, chunk: nat)
    requires start <= |data| && chunk >= 1
    ensures Decode(data[start..]).Some? <==> AllDecode(Ranges(data, start, chunk))
    ensures Decode(data[start..]).Some? ==> LinesOfRanges(Ranges(data, start, chunk)) == FileLines(data[start..])
    decreases |data| - start
  {
    var ranges := Ranges(data, start, chunk);
    EveryRange(ranges);
    var end := RangeEnd(data, start + chunk);
    if end.Some? {
      var e := end.value;
      RangesLines(data, e, chunk);
      SplitAt(data, start, e);
      assert ranges[0] == data[start..e] && ranges[1..] == Ranges(data, e, chunk);
      FileLinesCut(data[start..e], data[e..]);
    } else {
      assert ranges[0] == data[start..] && ranges[1..] == [];
    }
  }

  lemma EveryRange(ranges: seq<Bytes>)
    requires ranges != []
    ensures AllDecode(ranges) <==> Decode(ranges[0]).Some? && AllDecode(ranges[1..])
  {
    if Decode(ranges[0]).Some? && AllDecode(ranges[1..]) {
      forall k | 0 <= k < |ranges|
        ensures Decode(ranges[k]).Some?
      {
        assert k > 0 ==> ranges[k] == ranges[1..][k - 1];
      }
    }
  }

  // ----- reading serially

  /** What a text-mode read of the whole file does: the lines it yields, then perhaps a failure. */
  datatype Reader = Reader(yielded: seq<string>, failure: Option<Error>)

  /** `data[..end]` is valid text that ends where a line does. */
  predicate Clean(data: Bytes, end: nat) {
    end <= |data| && (end == 0 || data[end - 1] == NEWLINE) && Decode(data[..end]).Some?
  }

  /** `_decodes`: every byte a serial read may decode past `start`, before it yields the line that
      ends there, is valid. */
  predicate Decodes(data: Bytes, start: nat, lookahead: nat)
    requires start <= |data|
  {
    if start + lookahead >= |data| then Decode(data[start..]).Some?
    else DecodesSoFar(data[start..start + lookahead])
  }

  /** It is so exactly when the bytes in reach of such a read are the encoding of a text, or what is in
      reach is what more bytes could make one. */
  lemma DecodesExactly(data: Bytes, start: nat, lookahead: nat)
    requires start <= |data|
    ensures Decodes(data, start, lookahead)
            <==> if start + lookahead >= |data| then Utf8.IsText(data[start..])
                 else Utf8.StartsText(data[start..start + lookahead])
  {
    Utf8.TextExactly(data[start..]);
    if start + lookahead < |data| {
      Utf8.StartsExactly(data[start..start + lookahead]);
    }
  }

  predicate Agree(a: seq<string>, b: seq<string>) {
    a <= b || b <= a
  }

  /** A reader of `data` that decodes at most `lookahead` bytes past the line it is about to yield.
      How far it decodes ahead of a bad byte is the interpreter's choice. */
  ghost predicate Reads(data: Bytes, lookahead: nat, reader: Reader) {
    && (Decode(data).Some? ==> reader == Reader(FileLines(data), None))
    && (Decode(data).None? ==> reader.failure.Some?)
    && forall end: nat :: Clean(data, end) ==>
         && Agree(FileLines(data[..end]), reader.yielded)
         && (Decodes(data, end, lookahead) ==> FileLines(data[..end]) <= reader.yielded)
  }

  /** The last place at or before `end` where the file is clean. */
  function LastClean(data: Bytes, end: nat): (r: nat)
    requires end <= |data|
    ensures r <= end && Clean(data, r)
    ensures forall e: nat :: r < e <= end ==> !Clean(data, e)
  {
    if end == 0 || Clean(data, end) then
      assert data[..0] == [];
      end
    else LastClean(data, end - 1)
  }

  /** The lines of the file, or of as much as is valid up to the end of a line. */
  function Readable(data: Bytes): seq<string> {
    if Decode(data).Some? then FileLines(data) else FileLines(data[..LastClean(data, |data|)])
  }

  lemma ReadablePrefix(data: Bytes, end: nat)
    requires Clean(data, end) || (end == |data| && Decode(data).Some?)
    ensures Decode(data[..end]).Some? && FileLines(data[..end]) <= Readable(data)
  {
    if end == |data| && Decode(data).Some? {
      assert data[..end] == data;
    } else if Decode(data).Some? {
      WholeHasPrefix(data, end);
    } else {
      var last := LastClean(data, |data|);
      assert data[..last][..end] == data[..end];
      WholeHasPrefix(data[..last], end);
    }
  }

  /** Every file has such a reader, whatever the lookahead: the one that fails as late as it can. */
  lemma SomeReader(data: Bytes, lookahead: nat) returns (reader: Reader)
    ensures Reads(data, lookahead, reader)
  {
    reader := Reader(Readable(data), if Decode(data).Some? then None else Some(DecodeError("")));
    forall end: nat | Clean(data, end)
      ensures FileLines(data[..end]) <= reader.yielded
    {
      ReadablePrefix(data, end);
    }
  }

  /** No line that is read has a NaN where the summary compares by key or in chain order. */
  predicate CleanFile(w: World, data: Bytes, reader: Reader) {
    && (forall k :: 0 <= k < |Readable(data)| ==> CleanLine(w, Readable(data)[k]))
    && (forall k :: 0 <= k < |reader.yielded| ==> CleanLine(w, reader.yielded[k]))
  }

  /** The serial summarizer: `summarize` on the reader's lines. */
  function SerialSummary(w: World, reader: Reader): Result<Report, Error> {
    var st :- Lines(w, INITIAL, reader.yielded);
    if reader.failure.Some? then Err(reader.failure.value) else ReportOf(w, st)
  }

  // ----- the parallel driver

  /** What the host does: whether a pool starts, the n-th submission is taken, the n-th worker
      returns, and its read of the file succeeds. */
  datatype Host = Host(parallel: bool, pool: bool, submits: nat -> bool, works: nat -> bool, opens: nat -> bool)

  datatype Outcome = AllDone | UpTo(lines: nat) | Raised(error: Error) | FullySerial

  /** Everything the host is asked for works. */
  ghost predicate Willing(host: Host) {
    host.parallel && host.pool && forall n :: host.submits(n) && host.works(n) && host.opens(n)
  }

  /** What the copies of every range's items, from the n-th on, leave of the state; None when one is
      refused or must be read serially. */
  function FeedRanges(w: World, st: State, data: Bytes, start: nat, chunk: nat, n: nat): Option<State>
    requires start <= |data| && chunk >= 1
    decreases |data| - start
  {
    var end := RangeEnd(data, start + chunk);
    var copies := CopiedItems(RangeItems(w, data[start..StopOf(data, end)]).1, n);
    if !NoSerial(copies) || Replay(w, st, copies).Err? then None
    else if end.None? then Some(Replay(w, st, copies).value)
    else FeedRanges(w, Replay(w, st, copies).value, data, end.value, chunk, n + 1)
  }

  /** The ranges handed out but not yet replayed follow one another from `from`, and `next` is
      where the generator goes on. */
  ghost predicate Queued(data: Bytes, chunk: nat, from: nat, pending: seq<(nat, Option<nat>)>, next: Option<nat>)
    decreases |pending|
  {
    if pending == [] then
      if next.Some? then next.value == from <= |data| && (from == 0 || data[from - 1] == NEWLINE)
      else from == |data|
    else
      && pending[0].0 == from <= |data| && (from == 0 || data[from - 1] == NEWLINE)
      && pending[0].1 == RangeEnd(data, from + chunk)
      && match pending[0].1
         case Some(end) => from < end && Queued(data, chunk, end, pending[1..], next)
         case None => pending[1..] == [] && next == None
  }

  /** The summary stands where checking every line before `pos` leaves it. */
  ghost predicate CheckedTo(w: World, data: Bytes, clean: bool, pos: nat, checked: nat, st: State) {
    && pos <= |data| && Decode(data[..pos]).Some?
    && checked == |FileLines(data[..pos])|
    && (clean ==> AlikeSteps(Lines(w, INITIAL, FileLines(data[..pos])), Ok(st)))
  }

  /** A serial reader meets the refusal `e` among the lines before `end`. */
  ghost predicate RefusedBy(w: World, data: Bytes, clean: bool, end: nat, e: Error) {
    && end <= |data| && Decode(data[..end]).Some?
    && (clean ==> AlikeSteps(Lines(w, INITIAL, FileLines(data[..end])), Err(e)))
  }

  lemma {:induction false} QueueGrows(data: Bytes, chunk: nat, from: nat, pending: seq<(nat, Option<nat>)>, start: nat)
    requires Queued(data, chunk, from, pending, Some(start))
    ensures var end := RangeEnd(data, start + chunk); Queued(data, chunk, from, pending + [(start, end)], end)
    decreases |pending|
  {
    if pending == [] {
      assert ([] + [(start, RangeEnd(data, start + chunk))])[1..] == [];
    } else {
      assert (pending + [(start, RangeEnd(data, start + chunk))])[1..]
          == pending[1..] + [(start, RangeEnd(data, start + chunk))];
      QueueGrows(data, chunk, pending[0].1.value, pending[1..], start);
    }
  }

  lemma LinesUpTo(data: Bytes, pos: nat, stop: nat)
    requires pos <= stop <= |data| && (pos == 0 || data[pos - 1] == NEWLINE)
    requires Decode(data[..pos]).Some? && Decode(data[pos..stop]).Some?
    ensures Decode(data[..stop]).Some?
    ensures FileLines(data[..stop]) == FileLines(data[..pos]) + FileLines(data[pos..stop])
  {
    assert data[..stop] == data[..pos] + data[pos..stop];
    FileLinesCut(data[..pos], data[pos..stop]);
  }

  /** The copies of a range's items do what its lines do. */
  lemma CopiesFeed(w: World, lines: seq<string>, before: seq<string>, items: seq<Entry>, st: State, n: nat)
    requires AlikeSteps(Lines(w, INITIAL, before), Ok(st))
    requires Represents(w, items, lines) && CleanEntries(w, items)
    ensures NoSerial(CopiedItems(items, n))
    ensures AlikeSteps(Lines(w, INITIAL, before + lines), Replay(w, st, CopiedItems(items, n)))
  {
    var mid := Lines(w, INITIAL, before).value;
    LinesAppend(w, INITIAL, before, lines);
    CopiesAreCopies(items, n);
    ReplayAlike(w, mid, st, items, CopiedItems(items, n));
    assert Replay(w, mid, items) == Lines(w, mid, lines);
  }

  /** Every line of a range of a clean file is clean, and so are its items. */
  lemma RangeClean(w: World, data: Bytes, reader: Reader, pos: nat, stop: nat)
    requires CleanFile(w, data, reader)
    requires pos <= stop <= |data| && (pos == 0 || data[pos - 1] == NEWLINE) && (stop == |data| || Clean(data, stop))
    requires Decode(data[..pos]).Some? && Decode(data[pos..stop]).Some?
    ensures CleanEntries(w, RangeItems(w, data[pos..stop]).1)
  {
    LinesUpTo(data, pos, stop);
    assert data[..|data|] == data;
    ReadablePrefix(data, stop);
    var before, range := FileLines(data[..pos]), FileLines(data[pos..stop]);
    PartClean(w, Readable(data), before, range);
    CleanRange(w, EMPTY, range, 0);
  }

  lemma PartClean(w: World, all: seq<string>, before: seq<string>, part: seq<string>)
    requires before + part <= all && forall k :: 0 <= k < |all| ==> CleanLine(w, all[k])
    ensures forall k :: 0 <= k < |part| ==> CleanLine(w, part[k])
  {
    forall k | 0 <= k < |part|
      ensures CleanLine(w, part[k])
    {
      assert all[|before| + k] == part[k];
    }
  }

  /** Replaying the copies of one more range's items. */
  lemma RangeChecked(w: World, data: Bytes, reader: Reader, clean: bool, pos: nat, stop: nat, checked: nat, st: State,
      n: nat)
    requires clean ==> CleanFile(w, data, reader)
    requires CheckedTo(w, data, clean, pos, checked, st) && (pos == 0 || data[pos - 1] == NEWLINE)
    requires pos <= stop <= |data| && (stop == |data| || (stop > 0 && data[stop - 1] == NEWLINE))
    requires RangeItems(w, data[pos..stop]).1 != SERIAL
    ensures Decode(data[pos..stop]).Some? && Decode(data[..stop]).Some?
    ensures |FileLines(data[..stop])| == checked + |FileLines(data[pos..stop])|
    ensures NoSerial(CopiedItems(RangeItems(w, data[pos..stop]).1, n))
    ensures RangeItems(w, data[pos..stop]).0 == |FileLines(data[pos..stop])|
            || Replay(w, st, CopiedItems(RangeItems(w, data[pos..stop]).1, n)).Err?
    ensures clean ==>
              AlikeSteps(Lines(w, INITIAL, FileLines(data[..stop])),
                         Replay(w, st, CopiedItems(RangeItems(w, data[pos..stop]).1, n)))
  {
    var range := data[pos..stop];
    var count, items := RangeItems(w, range).0, RangeItems(w, range).1;
    RangeStands(w, range);
    LinesUpTo(data, pos, stop);
    CopiesAreCopies(items, n);
    if k :| 0 <= k < |items| && items[k].ErrorEntry? {
      assert CopiedItems(items, n)[k] == items[k];
      ErrorRefuses(w, st, CopiedItems(items, n), k);
    }
    if clean {
      RangeClean(w, data, reader, pos, stop);
      CopiesFeed(w, FileLines(range), FileLines(data[..pos]), items, st, n);
    }
  }

  lemma QueueStart(data: Bytes, chunk: nat, from: nat, pending: seq<(nat, Option<nat>)>, next: Option<nat>)
    requires Queued(data, chunk, from, pending, next) && (pending != [] || next.Some?)
    ensures from <= |data| && (from == 0 || data[from - 1] == NEWLINE)
  {
  }

  /** The range handed out first, and what follows it. */
  lemma QueueFront(data: Bytes, chunk: nat, from: nat, pending: seq<(nat, Option<nat>)>, next: Option<nat>)
    requires chunk >= 1 && Queued(data, chunk, from, pending, next) && pending != []
    ensures from <= |data| && (from == 0 || data[from - 1] == NEWLINE)
    ensures pending[0].0 == from && pending[0].1 == RangeEnd(data, from + chunk)
    ensures Queued(data, chunk, StopOf(data, pending[0].1), pending[1..], next)
    ensures More(data, pending[0].1, next.Some? || pending[1..] != [])
  {
  }

  /** Whether more is to come after a range that ends at `end`; after the end of the file it makes no
      difference. */
  predicate More(data: Bytes, end: Option<nat>, more: bool) {
    (end.Some? <==> more) || (end == Some(|data|) && !more)
  }

  /** Keep `jobs + 2` ranges handed out, while the host takes them. */
  method Submit(data: Bytes, chunk: nat, limit: nat, host: Host, pending0: seq<(nat, Option<nat>)>, next0: Option<nat>,
      submitted0: nat, ghost pos: nat)
      returns (taken: bool, pending: seq<(nat, Option<nat>)>, next: Option<nat>, submitted: nat)
    requires chunk >= 1 && |pending0| <= limit && Queued(data, chunk, pos, pending0, next0)
    ensures |pending| <= limit && Queued(data, chunk, pos, pending, next)
    ensures !taken ==> pending != [] || next.Some?
    ensures Willing(host) ==> taken
    ensures taken && limit > 0 ==> pending != [] || (next0.None? && pending0 == [])
    ensures pending != [] || next.Some? <==> pending0 != [] || next0.Some?
  {
    pending, next, submitted := pending0, next0, submitted0;
    while |pending| < limit && next.Some?
      invariant |pending| <= limit && Queued(data, chunk, pos, pending, next)
      invariant pending != [] || next.Some? <==> pending0 != [] || next0.Some?
      invariant pending != [] || (pending == pending0 && next == next0)
      decreases limit - |pending|
    {
      if !host.submits(submitted) {
        return false, pending, next, submitted;
      }
      var end := RangeEnd(data, next.value + chunk);
      QueueGrows(data, chunk, pos, pending, next.value);
      pending := pending + [(next.value, end)];
      next := end;
      submitted := submitted + 1;
    }
    taken := true;
  }

  /** One range was summarized, or refused, or must be read serially. */
  datatype RangeOutcome = RangeFed(count: nat) | RangeRefused(error: Error) | RangeSerial

  /** The n-th result: parsed by a worker, copied to this process, and replayed. */
  method FeedRange(w: World, summary: Summary, data: Bytes, start: nat, stop: nat, opens: bool, n: nat,
      ghost checked: nat, ghost reader: Reader, ghost clean: bool) returns (r: RangeOutcome)
    requires clean ==> CleanFile(w, data, reader)
    requires CheckedTo(w, data, clean, start, checked, summary.Value()) && (start == 0 || data[start - 1] == NEWLINE)
    requires start <= stop <= |data| && (stop == |data| || (stop > 0 && data[stop - 1] == NEWLINE))
    modifies summary
    ensures r.RangeFed? ==> CheckedTo(w, data, clean, stop, checked + r.count, summary.Value())
    ensures r.RangeRefused? ==> RefusedBy(w, data, clean, stop, r.error)
    ensures r.RangeSerial? ==> summary.Value() == old(summary.Value())
    ensures var copies := CopiedItems(RangeItems(w, data[start..stop]).1, n);
            opens && NoSerial(copies) && Replay(w, old(summary.Value()), copies).Ok? ==>
              r.RangeFed? && Ok(summary.Value()) == Replay(w, old(summary.Value()), copies)
  {
    var range := data[start..stop];
    var count, items := ParseRange(w, if opens then Some(range) else None);
    CopiesAreCopies(items, n);
    RangeStands(w, range);
    ghost var before := summary.Value();
    var replayed := ReplayInto(w, summary, CopiedItems(items, n));
    if replayed.NeedsSerial? {
      return RangeSerial;
    }
    RangeChecked(w, data, reader, clean, start, stop, checked, before, n);
    r := if replayed.Refused? then RangeRefused(replayed.error) else RangeFed(count);
  }

  /** What is left to do ends at `goal`. */
  ghost predicate Heads(w: World, data: Bytes, chunk: nat, pos: nat, done: nat, more: bool, st: State,
      goal: Option<State>)
    requires chunk >= 1 && pos <= |data|
  {
    goal.Some? ==> goal == if more then FeedRanges(w, st, data, pos, chunk, done) else Some(st)
  }

  /** One range on the way to the goal. */
  lemma HeadsOn(w: World, data: Bytes, chunk: nat, pos: nat, done: nat, st: State, goal: Option<State>)
    requires chunk >= 1 && pos <= |data| && Heads(w, data, chunk, pos, done, true, st, goal) && goal.Some?
    ensures var end := RangeEnd(data, pos + chunk);
            var copies := CopiedItems(RangeItems(w, data[pos..StopOf(data, end)]).1, done);
            && NoSerial(copies) && Replay(w, st, copies).Ok?
            && Heads(w, data, chunk, StopOf(data, end), done + 1, end.Some?, Replay(w, st, copies).value, goal)
  {
  }

  lemma NothingLeft(w: World, data: Bytes, chunk: nat, n: nat, st: State)
    requires chunk >= 1
    ensures FeedRanges(w, st, data, |data|, chunk, n) == Some(st)
  {
    assert data[|data|..|data|] == [];
    assert FileLines([]) == [];
    assert CopiedItems([], n) == [];
  }

  /** The same, on the way to the goal. */
  method FeedNext(w: World, summary: Summary, data: Bytes, start: nat, end: Option<nat>, chunk: nat, opens: bool,
      n: nat,
      ghost checked: nat, ghost reader: Reader, ghost clean: bool, ghost goal: Option<State>, ghost more: bool)
      returns (r: RangeOutcome)
    requires clean ==> CleanFile(w, data, reader)
    requires CheckedTo(w, data, clean, start, checked, summary.Value()) && (start == 0 || data[start - 1] == NEWLINE)
    requires chunk >= 1 && start <= |data| && end == RangeEnd(data, start + chunk)
    requires Heads(w, data, chunk, start, n, true, summary.Value(), goal) && More(data, end, more)
    modifies summary
    ensures r.RangeFed? ==> CheckedTo(w, data, clean, StopOf(data, end), checked + r.count, summary.Value())
    ensures r.RangeRefused? ==> RefusedBy(w, data, clean, StopOf(data, end), r.error)
    ensures r.RangeSerial? ==> summary.Value() == old(summary.Value())
    ensures goal.Some? && opens ==>
              r.RangeFed? && Heads(w, data, chunk, StopOf(data, end), n + 1, more, summary.Value(), goal)
  {
    if goal.Some? {
      HeadsOn(w, data, chunk, start, n, summary.Value(), goal);
    }
    r := FeedRange(w, summary, data, start, StopOf(data, end), opens, n, checked, reader, clean);
    NothingLeft(w, data, chunk, n + 1, summary.Value());
  }

  /** What an outcome other than the end says, the summary having got to `at`. */
  ghost predicate EndsAs(w: World, data: Bytes, clean: bool, at: nat, lookahead: nat, outcome: Outcome, st: State) {
    match outcome
    case AllDone => false
    case UpTo(lines) => Clean(data, at) && CheckedTo(w, data, clean, at, lines, st)
    case Raised(e) =>
      RefusedBy(w, data, clean, at, e) && (at == |data| || (Clean(data, at) && Decodes(data, at, lookahead)))
    case FullySerial => true
  }

  /** The next result, of the range handed out first: the rest of the file is to come, or the pass ends. */
  method NextRange(w: World, summary: Summary, data: Bytes, chunk: nat, host: Host, lookahead: nat,
      pending: seq<(nat, Option<nat>)>, next: Option<nat>, done: nat, checked: nat,
      ghost pos: nat, ghost reader: Reader, ghost clean: bool, ghost goal: Option<State>)
      returns (ended: Option<Outcome>, count: nat, ghost at: nat)
    requires chunk >= 1 && (clean ==> CleanFile(w, data, reader))
    requires pending != [] && Queued(data, chunk, pos, pending, next)
    requires CheckedTo(w, data, clean, pos, checked, summary.Value())
    requires Heads(w, data, chunk, pos, done, true, summary.Value(), goal) && (goal.Some? ==> Willing(host))
    modifies summary
    ensures ended.Some? ==> goal.None? && EndsAs(w, data, clean, at, lookahead, ended.value, summary.Value())
    ensures ended.None? ==>
              && Queued(data, chunk, at, pending[1..], next)
              && CheckedTo(w, data, clean, at, checked + count, summary.Value())
              && Heads(w, data, chunk, at, done + 1, next.Some? || pending[1..] != [], summary.Value(), goal)
              && (pos < at || (next == None && pending[1..] == []))
  {
    QueueFront(data, chunk, pos, pending, next);
    count, at := 0, pos;
    if !host.works(done) {
      return Some(UpTo(checked)), 0, pos;
    }
    var end := pending[0].1;
    var fed := FeedNext(w, summary, data, pending[0].0, end, chunk, host.opens(done), done, checked, reader, clean,
                        goal,
                        next.Some? || pending[1..] != []);
    match fed
    case RangeSerial =>
      ended := Some(UpTo(checked));
    case RangeFed(lines) =>
      ended, count, at := None, lines, StopOf(data, end);
    case RangeRefused(error) =>
      at := StopOf(data, end);
      ended := Some(if Decodes(data, StopOf(data, end), lookahead) then Raised(error) else FullySerial);
  }

  method SummarizeRanges(w: World, summary: Summary, data: Bytes, jobs: nat, chunk: nat, host: Host, lookahead: nat,
      ghost reader: Reader, ghost clean: bool)
      returns (outcome: Outcome, ghost pos: nat)
    requires chunk >= 1 && summary.Value() == INITIAL && (clean ==> CleanFile(w, data, reader))
    modifies summary
    ensures outcome.AllDone? ==>
              Decode(data).Some? && CheckedTo(w, data, clean, |data|, |FileLines(data)|, summary.Value())
    ensures !outcome.AllDone? ==> EndsAs(w, data, clean, pos, lookahead, outcome, summary.Value())
    ensures Willing(host) && FeedRanges(w, INITIAL, data, 0, chunk, 0).Some? ==>
              outcome.AllDone? && Some(summary.Value()) == FeedRanges(w, INITIAL, data, 0, chunk, 0)
  {
    pos := 0;
    NothingChecked(w, data, clean);
    if !host.pool {
      return UpTo(0), pos;
    }
    var pending: seq<(nat, Option<nat>)> := [];
    var next: Option<nat> := Some(0);
    var submitted, done, checked := 0, 0, 0;
    ghost var goal := if Willing(host) then FeedRanges(w, INITIAL, data, 0, chunk, 0) else None;
    while true
      invariant CheckedTo(w, data, clean, pos, checked, summary.Value())
      invariant |pending| <= jobs + 2 && Queued(data, chunk, pos, pending, next)
      invariant Heads(w, data, chunk, pos, done, next.Some? || pending != [], summary.Value(), goal)
      decreases |data| - pos, if next.Some? || pending != [] then 1 else 0
    {
      var taken;
      taken, pending, next, submitted := Submit(data, chunk, jobs + 2, host, pending, next, submitted, pos);
      if !taken {
        QueueStart(data, chunk, pos, pending, next);
        return UpTo(checked), pos;
      }
      if pending == [] {
        assert data[..pos] == data;
        return AllDone, pos;
      }
      var ended, count;
      ghost var at;
      ended, count, at :=
        NextRange(w, summary, data, chunk, host, lookahead, pending, next, done, checked, pos, reader, clean, goal);
      pos := at;
      if ended.Some? {
        return ended.value, pos;
      }
      pending, done, checked := pending[1..], done + 1, checked + count;
    }
  }

  lemma NothingChecked(w: World, data: Bytes, clean: bool)
    ensures CheckedTo(w, data, clean, 0, 0, INITIAL) && Clean(data, 0)
  {
    assert data[..0] == [];
    assert FileLines(data[..0]) == [];
  }

  lemma PrefixRefuses(w: World, lines: seq<string>, all: seq<string>)
    requires lines <= all
    ensures Lines(w, INITIAL, lines).Err? ==> Lines(w, INITIAL, all) == Lines(w, INITIAL, lines)
  {
    assert all == lines + all[|lines|..];
    LinesAppend(w, INITIAL, lines, all[|lines|..]);
  }

  /** A refusal the parallel driver raises is the first one the serial summarizer meets. */
  lemma RefusalReached(w: World, data: Bytes, reader: Reader, lookahead: nat, end: nat, e: Error)
    requires Reads(data, lookahead, reader) && end <= |data|
    ensures RefusedBy(w, data, true, end, e)
            && (end == |data| || (Clean(data, end) && Decodes(data, end, lookahead))) ==>
              SameOutcome(SerialSummary(w, reader), Err(e))
  {
    if !RefusedBy(w, data, true, end, e) || !(end == |data| || (Clean(data, end) && Decodes(data, end, lookahead))) {
      return;
    }
    assert data[..|data|] == data;
    PrefixRefuses(w, FileLines(data[..end]), reader.yielded);
  }

  /** Checking on from the lines already checked is checking every line once. */
  lemma Resumes(w: World, data: Bytes, reader: Reader, clean: bool, lookahead: nat, pos: nat, checked: nat, st: State)
    requires Reads(data, lookahead, reader) && Clean(data, pos) && CheckedTo(w, data, clean, pos, checked, st)
    requires checked <= |reader.yielded|
    ensures clean ==> AlikeSteps(Lines(w, INITIAL, reader.yielded[..checked]), Ok(st))
  {
    var lines := FileLines(data[..pos]);
    assert Agree(lines, reader.yielded);
    assert reader.yielded[..checked] == lines;
  }

  lemma WholeHasPrefix(data: Bytes, pos: nat)
    requires Clean(data, pos) && Decode(data).Some?
    ensures FileLines(data[..pos]) <= FileLines(data)
  {
    assert data == data[..pos] + data[pos..];
    FileLinesCut(data[..pos], data[pos..]);
  }

  /** A reader that fails before it yields the lines already checked fails the serial summarizer
      too: it accepts every line before the failure. */
  lemma FailsEarly(w: World, data: Bytes, reader: Reader, clean: bool, lookahead: nat, pos: nat, checked: nat,
      st: State)
    requires Reads(data, lookahead, reader) && Clean(data, pos) && CheckedTo(w, data, clean, pos, checked, st)
    requires |reader.yielded| < checked
    ensures reader.failure.Some?
    ensures clean ==> SerialSummary(w, reader) == Err(reader.failure.value)
  {
    var lines := FileLines(data[..pos]);
    assert Agree(lines, reader.yielded);
    if Decode(data).Some? {
      WholeHasPrefix(data, pos);
    }
    if Lines(w, INITIAL, reader.yielded).Err? {
      PrefixRefuses(w, reader.yielded, lines);
    }
  }

  /** The summary stands where the first `i` lines leave it: exactly, if it checked the whole of them,
      and alike if no line has a NaN in a key. */
  ghost predicate AtLine(w: World, lines: seq<string>, i: nat, clean: bool, whole: bool, now: Result<State, Error>)
    requires i <= |lines|
  {
    && (clean ==> AlikeSteps(Lines(w, INITIAL, lines[..i]), now))
    && (whole ==> Lines(w, INITIAL, lines[..i]) == now)
  }

  lemma AtNext(w: World, lines: seq<string>, i: nat, clean: bool, whole: bool, st: State)
    requires i < |lines| && (clean ==> CleanLine(w, lines[i])) && AtLine(w, lines, i, clean, whole, Ok(st))
    ensures AtLine(w, lines, i + 1, clean, whole, Line(w, st, lines[i]))
  {
    NextLine(w, lines, i);
    if clean {
      LineAlike(w, Lines(w, INITIAL, lines[..i]).value, st, lines[i]);
    }
  }

  /** A refusal among the lines is the summary's. */
  lemma AtRefusal(w: World, reader: Reader, i: nat, clean: bool, whole: bool, e: Error)
    requires i <= |reader.yielded| && AtLine(w, reader.yielded, i, clean, whole, Err(e))
    ensures clean ==> SameOutcome(SerialSummary(w, reader), Err(e))
    ensures whole ==> SerialSummary(w, reader) == Err(e)
  {
    PrefixRefuses(w, reader.yielded[..i], reader.yielded);
  }

  /** And so is the report, or the reader's failure, after them all. */
  lemma AtEnd(w: World, reader: Reader, clean: bool, whole: bool, st: State)
    requires AtLine(w, reader.yielded, |reader.yielded|, clean, whole, Ok(st))
    ensures var r := if reader.failure.Some? then Err(reader.failure.value) else ReportOf(w, st);
            (clean ==> SameOutcome(SerialSummary(w, reader), r)) && (whole ==> SerialSummary(w, reader) == r)
  {
    assert reader.yielded[..|reader.yielded|] == reader.yielded;
    if clean {
      ReportAlike(w, Lines(w, INITIAL, reader.yielded).value, st);
    }
  }

  /** The summarizer on its own: the lines not yet checked, and the report. */
  method Continue(w: World, summary: Summary, reader: Reader, checked: nat, ghost clean: bool, ghost whole: bool)
      returns (r: Result<Report, Error>)
    requires checked <= |reader.yielded|
    requires clean ==> forall k :: 0 <= k < |reader.yielded| ==> CleanLine(w, reader.yielded[k])
    requires AtLine(w, reader.yielded, checked, clean, whole, Ok(summary.Value()))
    modifies summary
    ensures clean ==> SameOutcome(SerialSummary(w, reader), r)
    ensures whole ==> r == SerialSummary(w, reader)
  {
    for i := checked to |reader.yielded|
      invariant AtLine(w, reader.yielded, i, clean, whole, Ok(summary.Value()))
    {
      AtNext(w, reader.yielded, i, clean, whole, summary.Value());
      var outcome := summary.LineOf(w, reader.yielded[i]);
      if outcome.Err? {
        AtRefusal(w, reader, i + 1, clean, whole, outcome.error);
        return Err(outcome.error);
      }
    }
    AtEnd(w, reader, clean, whole, summary.Value());
    r := if reader.failure.Some? then Err(reader.failure.value) else ReportOf(w, summary.Value());
  }

  /** There is a report exactly when the lines read lead to one, and it says what their rows say. */
  ghost predicate Meant(w: World, reader: Reader, r: Result<Report, Error>) {
    && (r.Ok? <==> && reader.failure == None && EvidenceMeaning.Admitted(w, reader.yielded)
                   && EvidenceMeaning.Reportable(w, reader.yielded))
    && (r.Ok? ==> EvidenceMeaning.Says(w, reader.yielded, r.value))
  }

  /** Reports that are printed the same say the same. */
  lemma SaysAlike(w: World, lines: seq<string>, a: Report, b: Report)
    requires ShownReport(a) == ShownReport(b) && EvidenceMeaning.Says(w, lines, a)
    ensures EvidenceMeaning.Says(w, lines, b)
  {
    assert ShownReport(a).counts == a.counts && ShownReport(a).digests == a.digests;
    assert ShownReport(b).counts == b.counts && ShownReport(b).digests == b.digests;
    assert forall k :: EvidenceMeaning.CountsKind(w, lines, a, k) ==> EvidenceMeaning.CountsKind(w, lines, b, k);
    assert |ShownReport(a).notes| == |a.notes| && |ShownReport(b).notes| == |b.notes|;
    assert forall k :: 0 <= k < |a.notes| ==> ShownReport(a).notes[k] == ShownNote(a.notes[k]);
    assert forall k :: 0 <= k < |b.notes| ==> ShownReport(b).notes[k] == ShownNote(b.notes[k]);
  }

  lemma SerialMeant(w: World, reader: Reader)
    ensures Meant(w, reader, SerialSummary(w, reader))
    ensures forall r :: SameOutcome(SerialSummary(w, reader), r) ==> Meant(w, reader, r)
  {
    EvidenceMeaning.ReportSays(w, reader.yielded);
    var serial := SerialSummary(w, reader);
    forall r | SameOutcome(serial, r)
      ensures Meant(w, reader, r)
    {
      if serial.Ok? {
        SaysAlike(w, reader.yielded, serial.value, r.value);
      }
    }
  }

  /** `summarize_file`, given what a serial read of the file yields. Without a NaN in a key the outcome
      is the serial summarizer's; on a willing host it is that of the copied items, whatever the keys. */
  method SummarizeFile(w: World, data: Bytes, reader: Reader, jobs: nat, chunk: nat, host: Host, lookahead: nat)
      returns (r: Result<Report, Error>)
    requires chunk >= 1 && Reads(data, lookahead, reader)
    ensures CleanFile(w, data, reader) ==> SameOutcome(SerialSummary(w, reader), r)
    ensures jobs <= 1 || !host.parallel ==> r == SerialSummary(w, reader)
    ensures CleanFile(w, data, reader) || jobs <= 1 || !host.parallel ==> Meant(w, reader, r)
    ensures jobs > 1 && Willing(host) && FeedRanges(w, INITIAL, data, 0, chunk, 0).Some? ==>
              r == ReportOf(w, FeedRanges(w, INITIAL, data, 0, chunk, 0).value)
  {
    SerialMeant(w, reader);
    var summary := new Summary();
    var checked := 0;
    ghost var clean := CleanFile(w, data, reader);
    assert reader.yielded[..0] == [];
    if jobs > 1 && host.parallel {
      ghost var pos;
      var outcome;
      outcome, pos := SummarizeRanges(w, summary, data, jobs, chunk, host, lookahead, reader, clean);
      match outcome {
        case AllDone =>
          assert data[..|data|] == data;
          if clean {
            ReportAlike(w, Lines(w, INITIAL, FileLines(data)).value, summary.Value());
          }
          return ReportOf(w, summary.Value());
        case Raised(e) =>
          if clean {
            RefusalReached(w, data, reader, lookahead, pos, e);
          }
          return Err(e);
        case FullySerial =>
          summary := new Summary();
        case UpTo(lines) =>
          checked := lines;
          if checked <= |reader.yielded| {
            Resumes(w, data, reader, clean, lookahead, pos, checked, summary.Value());
          } else {
            FailsEarly(w, data, reader, clean, lookahead, pos, checked, summary.Value());
            // The read fails while the lines already checked are skipped.
            return Err(reader.failure.value);
          }
      }
    }
    r := Continue(w, summary, reader, checked, clean, jobs <= 1 || !host.parallel);
  }

  lemma NextLine(w: World, lines: seq<string>, i: nat)
    requires i < |lines|
    ensures Lines(w, INITIAL, lines[..i]).Ok? ==>
              Lines(w, INITIAL, lines[..i + 1]) == Line(w, Lines(w, INITIAL, lines[..i]).value, lines[i])
  {
    assert lines[..i + 1][..i] == lines[..i];
    LastLine(w, INITIAL, lines[..i + 1]);
  }
}
