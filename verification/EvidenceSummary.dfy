/** `_Summary` of scripts/prism-recovery-evidence.py: the checks applied to records in file
    order, as functions on its state and as the class that updates that state in place. */
module EvidenceSummary {
  import opened Common
  import opened Results
  import opened TextLines
  import opened EvidenceJson

  type Label = (Json, Json, Json)

  /** The running carry chains, and the blocks they treat as marked. */
  datatype Chains = Chains(
      marked: set<Json>,
      started: bool,
      head: Bytes,
      order: Option<(Json, Json)>,
      byProgram: map<Json, int>,
      byLabel: map<Label, int>,
      legacyBreaks: nat,
      labelBreaks: set<Json>)

  datatype ShareState = ShareState(last: Json, accepted: int)

  datatype CandidateState = CandidateState(pending: int, unfinished: int)

  datatype State = State(
      fed: map<Hashed, Bytes>,
      counts: map<Hashed, nat>,
      integrity: Json,
      complete: bool,
      deferred: Option<Json>,
      chains: Chains,
      shares: ShareState,
      candidates: CandidateState)

  function Zeros(n: nat): Bytes {
    if n == 0 then [] else Zeros(n - 1) + [0]
  }

  const ZERO_HEAD := Zeros(32)

  const NO_CHAINS := Chains({}, false, ZERO_HEAD, None, map[], map[], 0, {})

  const INITIAL := State(map[], map[], Null, false, None, NO_CHAINS, ShareState(Int(0), 0), CandidateState(0, 0))

  function At<K, V>(m: map<K, V>, k: K, default: V): V {
    if k in m then m[k] else default
  }

  // ----- one record

  /** Hash and count `count` rows whose canonical bytes, newlines included, are `blob`. */
  function Feed(st: State, kind: Hashed, count: nat, blob: Bytes): State {
    st.(fed := st.fed[kind := At(st.fed, kind, []) + blob],
        counts := st.counts[kind := At(st.counts, kind, 0) + count])
  }

  function BlockRow(w: World, ch: Chains, row: Json): Result<Chains, Error> {
    if ch.started then Err(ValueError(BlocksAfterCarry))
    else
      var issued :- Get(row, AsIssuedAudit);
      if issued.Null? then Ok(ch)
      else
        var hash :- Item(row, BlockHash);
        var key :- Hash(hash);
        Ok(ch.(marked := ch.marked + {key}))
  }

  /** The order of an active carry row, once it is known to be after the one before. */
  function CarryOrdered(w: World, before: Option<(Json, Json)>, row: Json): Result<(Json, Json), Error> {
    var height :- Item(row, BlockHeight);
    var sequence :- Item(row, CarrySeq);
    if before.None? then Ok((height, sequence))
    else
      var stale :- PairLe(w, (height, sequence), before.value);
      if stale then Err(ValueError(CarryOrder)) else Ok((height, sequence))
  }

  datatype Carry = Carry(program: Json, paid: Label, gross: int, onchain: int, block: Json)

  /** The dict keys, amounts and block of an active carry row, read in the script's order. */
  function CarryOf(w: World, row: Json): Result<Carry, Error> {
    var program :- Item(row, Program);
    var recipient :- Item(row, Recipient);
    var orderKey :- Item(row, OrderKey);
    var gross :- Amount(w, row, GrossAmount);
    var onchain :- Amount(w, row, OnchainAmount);
    var programKey :- Hash(program);
    var recipientKey :- Hash(recipient);
    var orderKeyKey :- Hash(orderKey);
    var block :- Item(row, BlockHash);
    var blockKey :- Hash(block);
    Ok(Carry(programKey, (recipientKey, orderKeyKey, programKey), gross, onchain, blockKey))
  }

  /** The two chain rules, for a row on a block that is not marked. */
  function CarryBreaks(w: World, ch: Chains, row: Json, c: Carry): Result<Chains, Error> {
    if c.block in ch.marked then Ok(ch)
    else
      var legacy :- OffChain(w, row, At(ch.byProgram, c.program, 0), c.gross, c.onchain);
      var counted := if legacy then ch.(legacyBreaks := ch.legacyBreaks + 1) else ch;
      var perLabel :- OffChain(w, row, At(ch.byLabel, c.paid, 0), c.gross, c.onchain);
      if !perLabel then Ok(counted)
      else
        var sequence :- Item(row, CarrySeq);
        var key :- Hash(sequence);
        Ok(counted.(labelBreaks := counted.labelBreaks + {key}))
  }

  function CarryAdded(ch: Chains, c: Carry): Chains {
    ch.(byProgram := ch.byProgram[c.program := At(ch.byProgram, c.program, 0) + c.gross - c.onchain],
        byLabel := ch.byLabel[c.paid := At(ch.byLabel, c.paid, 0) + c.gross - c.onchain])
  }

  /** The head advances and the order is checked before anything else is read. */
  function CarryStart(w: World, ch: Chains, row: Json, canonical: Bytes): Result<Chains, Error> {
    var order :- CarryOrdered(w, ch.order, row);
    Ok(ch.(started := true, head := w.sha(ch.head + canonical), order := Some(order)))
  }

  function CarryRow(w: World, ch: Chains, row: Json, canonical: Bytes): Result<Chains, Error> {
    var ordered :- CarryStart(w, ch, row, canonical);
    var c :- CarryOf(w, row);
    var checked :- CarryBreaks(w, ordered, row, c);
    Ok(CarryAdded(checked, c))
  }

  function ShareRow(w: World, sh: ShareState, row: Json): Result<ShareState, Error> {
    var sequence :- Item(row, ShareSeq);
    var stale :- Le(w, sequence, sh.last);
    if stale then Err(ValueError(ShareOrder))
    else
      var flag :- Item(row, Accepted);
      var n :- IntOf(w, flag);
      Ok(ShareState(sequence, sh.accepted + n))
  }

  predicate OpenState(v: Json) {
    !(v.Str? && v.s in ["submitted", "abandoned", "orphaned"])
  }

  function CandidateRow(ca: CandidateState, row: Json): Result<CandidateState, Error> {
    var state :- Item(row, StateField);
    Ok(CandidateState(ca.pending + (if state == Str("pending") then 1 else 0),
                      ca.unfinished + (if OpenState(state) then 1 else 0)))
  }

  function Checked(w: World, st: State, kind: Hashed, row: Json, canonical: Bytes): Result<State, Error> {
    match kind
    case Blocks =>
      var chains :- BlockRow(w, st.chains, row);
      Ok(st.(chains := chains))
    case ActiveCarry =>
      var chains :- CarryRow(w, st.chains, row, canonical);
      Ok(st.(chains := chains))
    case Shares =>
      var shares :- ShareRow(w, st.shares, row);
      Ok(st.(shares := shares))
    case Candidates =>
      var candidates :- CandidateRow(st.candidates, row);
      Ok(st.(candidates := candidates))
    case _ => Ok(st)
  }

  function AccountingRow(w: World, st: State, kind: Hashed, row: Json, known: Option<Bytes>): Result<State, Error> {
    if !st.integrity.Null? then Err(ValueError(AccountingAfterIntegrity))
    else
      var canonical :- if known.Some? then Ok(known.value) else w.canonical(row);
      Checked(w, Feed(st, kind, 1, canonical + [NEWLINE]), kind, row, canonical)
  }

  /** `record` */
  function Record(w: World, st: State, kind: Json, row: Json, known: Option<Bytes>): Result<State, Error> {
    match w.kind(kind)
    case Complete =>
      if row != Bool(true) || st.integrity.Null? then Err(ValueError(BadMarker))
      else Ok(st.(complete := true))
    case Integrity =>
      if !st.integrity.Null? then Err(ValueError(DuplicateIntegrity)) else Ok(st.(integrity := row))
    case Accounting(k) => AccountingRow(w, st, k, row, known)
    case Deferral =>
      if st.deferred.Some? then Err(ValueError(DuplicateDeferral))
      else if !row.Obj? then Err(ValueError(DeferralNotObject))
      else Ok(st.(deferred := Some(row)))
    case Unknown => Err(ValueError(UnknownKind(kind)))
    case UnhashableKind(tag) => Err(Unhashable(tag))
  }

  /** `start` */
  function Start(st: State): Result<State, Error> {
    if st.complete then Err(ValueError(RecordsAfterMarker)) else Ok(st)
  }

  datatype Parsed = Parsed(kind: Json, row: Json)

  /** Every NaN that `json.loads` gives is the same object. */
  function Parse(w: World, line: string): Result<Parsed, Error> {
    var loaded :- w.loads(line);
    var record := Shown(loaded);
    var kind :- Item(record, KindField);
    var row :- Item(record, RowField);
    Ok(Parsed(kind, row))
  }

  /** `line` */
  function Line(w: World, st: State, line: string): Result<State, Error> {
    var started :- Start(st);
    var p :- Parse(w, line);
    Record(w, started, p.kind, p.row, None)
  }

  /** Every line in turn, up to the first refusal. */
  function Lines(w: World, st: State, lines: seq<string>): Result<State, Error>
    decreases |lines|
  {
    if lines == [] then Ok(st)
    else
      var next :- Line(w, st, lines[0]);
      Lines(w, next, lines[1..])
  }

  // ----- runs

  /** `rows` */
  function RowRun(w: World, st: State, kind: Hashed, count: nat, blob: Bytes): Result<State, Error> {
    var started :- Start(st);
    if !started.integrity.Null? then Err(ValueError(AccountingAfterIntegrity))
    else Ok(Feed(started, kind, count, blob))
  }

  /** `shares` */
  function ShareRun(w: World, st: State, count: nat, blob: Bytes, first: int, last: int,
      accepted: int): Result<State, Error>
  {
    var fed :- RowRun(w, st, Shares, count, blob);
    var stale :- Le(w, Int(first), fed.shares.last);
    if stale then Err(ValueError(ShareOrder))
    else Ok(fed.(shares := ShareState(Int(last), fed.shares.accepted + accepted)))
  }

  // ----- the report

  datatype Note = ClearedFindings(count: nat) | DeferredHashes(cursor: Json)

  datatype Report = Report(
      counts: map<Hashed, nat>,
      digests: map<Hashed, Bytes>,
      deferredHashes: Option<Json>,
      acceptedShares: int,
      lastShareSeq: Json,
      pendingCandidates: int,
      unfinishedCandidates: int,
      auditHead: Bytes,
      integrity: Json,
      notes: seq<Note>)

  function WholeNumber(integrity: Json, f: Field): Result<int, Error>
    requires integrity.Obj?
  {
    if f in integrity.fields && integrity.fields[f].Int? then Ok(integrity.fields[f].i)
    else Err(ValueError(IntegrityLacks(f)))
  }

  /** Whether a finding is one only the as-issued (manifest) rule can report. */
  function AsIssued(marked: set<Json>, finding: Json): Result<bool, Error>
    requires finding.Obj?
  {
    var sequence :- Get(finding, CarrySeq);
    if sequence.Null? then Ok(true)
    else
      var block :- Get(finding, BlockHash);
      var key :- Hash(block);
      Ok(key in marked)
  }

  function CountAsIssued(marked: set<Json>, findings: seq<Json>): Result<nat, Error>
    requires forall k :: 0 <= k < |findings| ==> findings[k].Obj?
  {
    if findings == [] then Ok(0)
    else
      var first :- AsIssued(marked, findings[0]);
      var rest :- CountAsIssued(marked, findings[1..]);
      Ok((if first then 1 else 0) + rest)
  }

  function Explained(breaks: set<Json>, finding: Json): Result<bool, Error> {
    var sequence :- Item(finding, CarrySeq);
    var key :- Hash(sequence);
    Ok(key in breaks)
  }

  function CountUnexplained(breaks: set<Json>, findings: seq<Json>): Result<nat, Error> {
    if findings == [] then Ok(0)
    else
      var first :- Explained(breaks, findings[0]);
      var rest :- CountUnexplained(breaks, findings[1..]);
      Ok((if first then 0 else 1) + rest)
  }

  /** The findings of the database's integrity report, once it is known to be well formed. */
  function Findings(st: State): Result<seq<Json>, Error> {
    if !st.complete then Err(ValueError(IncompleteExport))
    else if !st.integrity.Obj? then Err(ValueError(IntegrityNotObject))
    else
      var mismatches :- WholeNumber(st.integrity, MismatchCount);
      var drift :- WholeNumber(st.integrity, DriftCount);
      var rows :- WholeNumber(st.integrity, CheckedRows);
      var listed := At(st.integrity.fields, Mismatches, Arr([]));
      if drift != 0 then Err(ValueError(CurrentDrift))
      else if rows != At(st.counts, ActiveCarry, 0) then Err(ValueError(CarryCountDiffers))
      else if !listed.Arr? || |listed.items| != mismatches then Err(ValueError(MismatchesNotListed))
      else if exists k :: 0 <= k < |listed.items| && !listed.items[k].Obj? then Err(ValueError(MismatchNotObject))
      else Ok(listed.items)
  }

  /** `report`, with the notes it appends */
  function ReportOf(w: World, st: State): Result<Report, Error> {
    var findings :- Findings(st);
    var asIssued :- CountAsIssued(st.chains.marked, findings);
    if asIssued > 0 then Err(ValueError(AsIssuedFindings(asIssued)))
    else if st.chains.legacyBreaks > 0 then Err(ValueError(LegacyBreaks(st.chains.legacyBreaks)))
    else
      var unexplained :- CountUnexplained(st.chains.labelBreaks, findings);
      if unexplained > 0 then Err(ValueError(Unexplained(unexplained)))
      else if st.deferred.Some? && At(st.counts, ShareHashes, 0) != 0 then Err(ValueError(DeferralBesideRows))
      else Ok(Summarized(w, st, findings))
  }

  function Summarized(w: World, st: State, findings: seq<Json>): Report
    requires st.integrity.Obj?
  {
    Report(st.counts,
           map k | k in st.fed :: w.sha(st.fed[k]),
           st.deferred,
           st.shares.accepted, st.shares.last, st.candidates.pending, st.candidates.unfinished, st.chains.head,
           Obj(st.integrity.fields[MismatchCount := Int(0)][Mismatches := Arr([])]),
           (if findings != [] then [ClearedFindings(|findings|)] else [])
           + (if st.deferred.Some? then [DeferredHashes(st.deferred.value)] else []))
  }

  // ----- the class

  /** A method's outcome `r`, and the state `now` it leaves, are those of its function. A refusal
      ends the summary, so the state it leaves does not matter. */
  predicate Did<S(==)>(now: S, r: Result<(), Error>, spec: Result<S, Error>) {
    match spec
    case Ok(st) => r.Ok? && now == st
    case Err(e) => r == Err(e)
  }

  class Summary {
    var fed: map<Hashed, Bytes>
    var counts: map<Hashed, nat>
    var head: Bytes
    var lastShareSeq: Json
    var accepted: int
    var pending: int
    var unfinished: int
    var integrity: Json
    var complete: bool
    var marked: set<Json>
    var carryStarted: bool
    var carryOrder: Option<(Json, Json)>
    var byProgram: map<Json, int>
    var byLabel: map<Label, int>
    var legacyBreaks: nat
    var labelBreaks: set<Json>
    var deferred: Option<Json>

    function TheChains(): Chains
      reads this
    {
      Chains(marked, carryStarted, head, carryOrder, byProgram, byLabel, legacyBreaks, labelBreaks)
    }

    function TheShares(): ShareState
      reads this
    {
      ShareState(lastShareSeq, accepted)
    }

    function TheCandidates(): CandidateState
      reads this
    {
      CandidateState(pending, unfinished)
    }

    function Value(): State
      reads this
    {
      State(fed, counts, integrity, complete, deferred, TheChains(), TheShares(), TheCandidates())
    }

    constructor ()
      ensures Value() == INITIAL
    {
      fed, counts, integrity, complete, deferred := map[], map[], Null, false, None;
      head, lastShareSeq, accepted, pending, unfinished := ZERO_HEAD, Int(0), 0, 0, 0;
      marked, carryStarted, carryOrder := {}, false, None;
      byProgram, byLabel, legacyBreaks, labelBreaks := map[], map[], 0, {};
    }

    method StartLine() returns (r: Result<(), Error>)
      ensures Did(Value(), r, Start(Value()))
    {
      if complete {
        return Err(ValueError(RecordsAfterMarker));
      }
      r := Ok(());
    }

    method CheckBlock(w: World, row: Json) returns (r: Result<(), Error>)
      modifies this`marked
      ensures Did(TheChains(), r, BlockRow(w, old(TheChains()), row))
    {
      if carryStarted {
        return Err(ValueError(BlocksAfterCarry));
      }
      var issued := Get(row, AsIssuedAudit);
      if issued.Err? { return Err(issued.error); }
      if !issued.value.Null? {
        var hash := Item(row, BlockHash);
        if hash.Err? { return Err(hash.error); }
        var key := Hash(hash.value);
        if key.Err? { return Err(key.error); }
        marked := marked + {key.value};
      }
      r := Ok(());
    }

    method CheckCarry(w: World, row: Json, canonical: Bytes) returns (r: Result<(), Error>)
      modifies this`carryStarted, this`head, this`carryOrder, this`legacyBreaks, this`labelBreaks, this`byProgram,
        this`byLabel
      ensures Did(TheChains(), r, CarryRow(w, old(TheChains()), row, canonical))
    {
      carryStarted := true;
      head := w.sha(head + canonical);
      var order := CarryOrdered(w, carryOrder, row);
      if order.Err? { return Err(order.error); }
      carryOrder := Some(order.value);
      var c := CarryOf(w, row);
      if c.Err? { return Err(c.error); }
      r := CheckBreaks(w, row, c.value);
      if r.Ok? {
        AddCarry(c.value);
      }
    }

    method CheckBreaks(w: World, row: Json, c: Carry) returns (r: Result<(), Error>)
      modifies this`legacyBreaks, this`labelBreaks
      ensures Did(TheChains(), r, CarryBreaks(w, old(TheChains()), row, c))
    {
      if c.block in marked {
        return Ok(());
      }
      var legacy := OffChain(w, row, At(byProgram, c.program, 0), c.gross, c.onchain);
      if legacy.Err? { return Err(legacy.error); }
      if legacy.value {
        legacyBreaks := legacyBreaks + 1;
      }
      var perLabel := OffChain(w, row, At(byLabel, c.paid, 0), c.gross, c.onchain);
      if perLabel.Err? { return Err(perLabel.error); }
      if perLabel.value {
        var sequence := Item(row, CarrySeq);
        if sequence.Err? { return Err(sequence.error); }
        var key := Hash(sequence.value);
        if key.Err? { return Err(key.error); }
        labelBreaks := labelBreaks + {key.value};
      }
      r := Ok(());
    }

    method AddCarry(c: Carry)
      modifies this`byProgram, this`byLabel
      ensures TheChains() == CarryAdded(old(TheChains()), c)
    {
      byProgram := byProgram[c.program := At(byProgram, c.program, 0) + c.gross - c.onchain];
      byLabel := byLabel[c.paid := At(byLabel, c.paid, 0) + c.gross - c.onchain];
    }

    method CheckShare(w: World, row: Json) returns (r: Result<(), Error>)
      modifies this`lastShareSeq, this`accepted
      ensures Did(TheShares(), r, ShareRow(w, old(TheShares()), row))
    {
      var sequence := Item(row, ShareSeq);
      if sequence.Err? { return Err(sequence.error); }
      var stale := Le(w, sequence.value, lastShareSeq);
      if stale.Err? { return Err(stale.error); }
      if stale.value {
        return Err(ValueError(ShareOrder));
      }
      lastShareSeq := sequence.value;
      var flag := Item(row, Accepted);
      if flag.Err? { return Err(flag.error); }
      var n := IntOf(w, flag.value);
      if n.Err? { return Err(n.error); }
      accepted := accepted + n.value;
      r := Ok(());
    }

    method CheckCandidate(row: Json) returns (r: Result<(), Error>)
      modifies this`pending, this`unfinished
      ensures Did(TheCandidates(), r, CandidateRow(old(TheCandidates()), row))
    {
      var state := Item(row, StateField);
      if state.Err? { return Err(state.error); }
      if state.value == Str("pending") {
        pending := pending + 1;
      }
      if OpenState(state.value) {
        unfinished := unfinished + 1;
      }
      r := Ok(());
    }

    method CheckRow(w: World, kind: Hashed, row: Json, canonical: Bytes) returns (r: Result<(), Error>)
      modifies this
      ensures Did(Value(), r, Checked(w, old(Value()), kind, row, canonical))
    {
      match kind {
        case Blocks => r := CheckBlock(w, row);
        case ActiveCarry => r := CheckCarry(w, row, canonical);
        case Shares => r := CheckShare(w, row);
        case Candidates => r := CheckCandidate(row);
        case _ => r := Ok(());
      }
    }

    method FeedRows(kind: Hashed, count: nat, blob: Bytes)
      modifies this`fed, this`counts
      ensures Value() == Feed(old(Value()), kind, count, blob)
    {
      fed := fed[kind := At(fed, kind, []) + blob];
      counts := counts[kind := At(counts, kind, 0) + count];
    }

    method RecordAccounting(w: World, kind: Hashed, row: Json, known: Option<Bytes>) returns (r: Result<(), Error>)
      modifies this
      ensures Did(Value(), r, AccountingRow(w, old(Value()), kind, row, known))
    {
      if !integrity.Null? {
        return Err(ValueError(AccountingAfterIntegrity));
      }
      var canonical := if known.Some? then Ok(known.value) else w.canonical(row);
      if canonical.Err? { return Err(canonical.error); }
      FeedRows(kind, 1, canonical.value + [NEWLINE]);
      r := CheckRow(w, kind, row, canonical.value);
    }

    method RecordRow(w: World, kind: Json, row: Json, known: Option<Bytes>) returns (r: Result<(), Error>)
      modifies this
      ensures Did(Value(), r, Record(w, old(Value()), kind, row, known))
    {
      match w.kind(kind) {
        case Complete =>
          if row != Bool(true) || integrity.Null? {
            return Err(ValueError(BadMarker));
          }
          complete := true;
          r := Ok(());
        case Integrity =>
          if !integrity.Null? {
            return Err(ValueError(DuplicateIntegrity));
          }
          integrity := row;
          r := Ok(());
        case Accounting(k) =>
          r := RecordAccounting(w, k, row, known);
        case Deferral =>
          if deferred.Some? {
            return Err(ValueError(DuplicateDeferral));
          }
          if !row.Obj? {
            return Err(ValueError(DeferralNotObject));
          }
          deferred := Some(row);
          r := Ok(());
        case Unknown =>
          r := Err(ValueError(UnknownKind(kind)));
        case UnhashableKind(tag) =>
          r := Err(Unhashable(tag));
      }
    }

    method LineOf(w: World, line: string) returns (r: Result<(), Error>)
      modifies this
      ensures Did(Value(), r, Line(w, old(Value()), line))
    {
      r := StartLine();
      if r.Ok? {
        var p := Parse(w, line);
        if p.Err? { return Err(p.error); }
        r := RecordRow(w, p.value.kind, p.value.row, None);
      }
    }

    method AddRows(w: World, kind: Hashed, count: nat, blob: Bytes) returns (r: Result<(), Error>)
      modifies this`fed, this`counts
      ensures Did(Value(), r, RowRun(w, old(Value()), kind, count, blob))
    {
      r := StartLine();
      if r.Ok? {
        if !integrity.Null? {
          return Err(ValueError(AccountingAfterIntegrity));
        }
        FeedRows(kind, count, blob);
      }
    }

    method AddShares(w: World, count: nat, blob: Bytes, first: int, last: int, flags: int)
        returns (r: Result<(), Error>)
      modifies this
      ensures Did(Value(), r, ShareRun(w, old(Value()), count, blob, first, last, flags))
    {
      r := AddRows(w, Shares, count, blob);
      if r.Ok? {
        var stale := Le(w, Int(first), lastShareSeq);
        if stale.Err? { return Err(stale.error); }
        if stale.value {
          return Err(ValueError(ShareOrder));
        }
        lastShareSeq := Int(last);
        accepted := accepted + flags;
      }
    }
  }

  // ----- folding lines

  lemma {:induction false} LinesAppend(w: World, st: State, a: seq<string>, b: seq<string>)
    ensures Lines(w, st, a + b) == match Lines(w, st, a)
                                   case Ok(mid) => Lines(w, mid, b)
                                   case Err(e) => Err(e)
    decreases |a|
  {
    if a == [] {
      assert a + b == b;
    } else {
      assert (a + b)[1..] == a[1..] + b;
      if Line(w, st, a[0]).Ok? {
        LinesAppend(w, Line(w, st, a[0]).value, a[1..], b);
      }
    }
  }

  /** The last line, after the lines before it. */
  lemma LastLine(w: World, st: State, lines: seq<string>)
    requires lines != []
    ensures var n := |lines| - 1;
            Lines(w, st, lines) == match Lines(w, st, lines[..n])
                                   case Ok(mid) => Line(w, mid, lines[n])
                                   case Err(e) => Err(e)
  {
    var n := |lines| - 1;
    assert lines == lines[..n] + [lines[n]];
    LinesAppend(w, st, lines[..n], [lines[n]]);
    if Lines(w, st, lines[..n]).Ok? {
      OneLine(w, Lines(w, st, lines[..n]).value, lines[n]);
    }
  }

  lemma OneLine(w: World, st: State, line: string)
    ensures Lines(w, st, [line]) == Line(w, st, line)
  {
    if Line(w, st, line).Ok? {
      assert [line][1..] == [];
    }
  }

  /** Nothing is recorded after the completion marker, and nothing without it is reported. */
  lemma {:induction false} NoMarkerNoReport(w: World, st: State, lines: seq<string>)
    requires !st.complete
    requires forall k :: 0 <= k < |lines| && Parse(w, lines[k]).Ok? ==> !w.kind(Parse(w, lines[k]).value.kind).Complete?
    ensures Lines(w, st, lines).Ok? ==> ReportOf(w, Lines(w, st, lines).value) == Err(ValueError(IncompleteExport))
    decreases |lines|
  {
    if lines != [] && Line(w, st, lines[0]).Ok? {
      var p := Parse(w, lines[0]).value;
      KeepsIncomplete(w, st, p.kind, p.row);
      NoMarkerNoReport(w, Line(w, st, lines[0]).value, lines[1..]);
    }
  }

  lemma KeepsIncomplete(w: World, st: State, kind: Json, row: Json)
    requires !st.complete && !w.kind(kind).Complete? && Record(w, st, kind, row, None).Ok?
    ensures !Record(w, st, kind, row, None).value.complete
  {
  }
}
