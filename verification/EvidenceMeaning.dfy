/** What the summary says of an export, from the rows its lines hold: which exports are reported on,
    and every figure of the report (scripts/prism-recovery-evidence.py). */
module EvidenceMeaning {
  import opened Common
  import opened Results
  import opened TextLines
  import opened EvidenceJson
  import opened EvidenceSummary
  import opened CarryChains

  // ----- the rows of an export

  /** The kind and the row of a line that is a record whose kind is a text. */
  function RecordIn(w: World, line: string): Option<(Kind, Json)> {
    match w.loads(line)
    case Err(_) => None
    case Ok(loaded) =>
      match Shown(loaded)
      case Obj(m) =>
        if KindField in m && RowField in m && m[KindField].Str? then Some((w.meaning(m[KindField].s), m[RowField]))
        else None
      case _ => None
  }

  /** The rows of one kind, in file order. */
  function Rows(w: World, lines: seq<string>, kind: Kind): seq<Json> {
    if lines == [] then []
    else
      var before, last := lines[..|lines| - 1], RecordIn(w, lines[|lines| - 1]);
      Rows(w, before, kind) + if last.Some? && last.value.0 == kind then [last.value.1] else []
  }

  /** The integrity reports, but for a null one, which the summary takes for none. */
  function Reports(w: World, lines: seq<string>): seq<Json> {
    NotNull(Rows(w, lines, Integrity))
  }

  function NotNull(rows: seq<Json>): seq<Json> {
    if rows == [] then []
    else NotNull(rows[..|rows| - 1]) + if rows[|rows| - 1] == Null then [] else [rows[|rows| - 1]]
  }

  /** The canonical bytes of the rows, each with a newline. */
  function Blob(w: World, rows: seq<Json>): Bytes {
    if rows == [] then []
    else
      var last := w.canonical(rows[|rows| - 1]);
      Blob(w, rows[..|rows| - 1]) + (if last.Ok? then last.value else []) + [10]
  }

  /** The audit chain over the rows: each head is the hash of the one before and the row. */
  function HeadOf(w: World, rows: seq<Json>): Bytes {
    if rows == [] then seq(32, _ => 0)
    else
      var last := w.canonical(rows[|rows| - 1]);
      w.sha(HeadOf(w, rows[..|rows| - 1]) + if last.Ok? then last.value else [])
  }

  // ----- the fields of a row

  predicate Has(row: Json, f: Field) {
    row.Obj? && f in row.fields
  }

  /** How many of the rows have this state. */
  function InState(rows: seq<Json>, state: string): nat {
    if rows == [] then 0
    else
      var last := rows[|rows| - 1];
      InState(rows[..|rows| - 1], state) + if Has(last, StateField) && last.fields[StateField] == Str(state) then 1
        else 0
  }

  function Sum(numbers: seq<int>): int {
    if numbers == [] then 0 else Sum(numbers[..|numbers| - 1]) + numbers[|numbers| - 1]
  }

  /** `n` is `r` without its fraction. */
  predicate Truncates(r: real, n: int) {
    if r >= 0.0 then n as real <= r < n as real + 1.0 else n as real - 1.0 < r <= n as real
  }

  /** The number `n` that `int` makes of a flag. */
  predicate FlagIs(w: World, v: Json, n: int) {
    match v
    case Int(i) => n == i
    case Bool(b) => n == if b then 1 else 0
    case Float(r) => Truncates(r, n)
    case NegativeZero => n == 0
    case Str(s) => w.intOfText(s) == Ok(n)
    case _ => false
  }

  predicate FlagsOf(w: World, rows: seq<Json>, flags: seq<int>) {
    |flags| == |rows| && forall k :: 0 <= k < |rows| ==>
      Has(rows[k], Accepted) && FlagIs(w, rows[k].fields[Accepted], flags[k])
  }

  /** A dict or a set can hold it. */
  predicate Keyed(v: Json) {
    !v.Arr? && !v.Obj?
  }

  /** A dict or a set takes them for one key. */
  predicate SameKey(a: Json, b: Json) {
    Keyed(a) && Keyed(b) && (a == b || (IsFinite(a) && IsFinite(b) && NumberOf(a) == NumberOf(b)))
  }

  /** The field holds the amount `n`. */
  predicate Stored(w: World, row: Json, f: Field, n: int) {
    Has(row, f) && (row.fields[f] == Int(n)
                    || (row.fields[f].Str? && IntegerText(row.fields[f].s) && w.intOfText(row.fields[f].s) == Ok(n)))
  }

  predicate HasAmount(w: World, row: Json, f: Field) {
    Has(row, f) && (row.fields[f].Int?
                    || (row.fields[f].Str? && IntegerText(row.fields[f].s) && w.intOfText(row.fields[f].s).Ok?))
  }

  function AmountIn(w: World, row: Json, f: Field): int
    requires HasAmount(w, row, f)
  {
    if row.fields[f].Int? then row.fields[f].i else w.intOfText(row.fields[f].s).value
  }

  // ----- lines that are accepted, one after another

  /** A block row that is marked as issued. */
  predicate Marks(row: Json) {
    Has(row, AsIssuedAudit) && row.fields[AsIssuedAudit] != Null
  }

  predicate MarksBlock(row: Json, block: Json) {
    Marks(row) && Has(row, BlockHash) && SameKey(row.fields[BlockHash], block)
  }

  predicate IsMarked(blocks: seq<Json>, block: Json) {
    exists k :: 0 <= k < |blocks| && MarksBlock(blocks[k], block)
  }

  predicate BlockFits(row: Json) {
    row.Obj? && (Marks(row) ==> Has(row, BlockHash) && Keyed(row.fields[BlockHash]))
  }

  /** The sequence that the next share must be above. */
  function LastSequence(shares: seq<Json>): Json {
    if shares == [] then Int(0)
    else if Has(shares[|shares| - 1], ShareSeq) then shares[|shares| - 1].fields[ShareSeq]
    else Null
  }

  predicate HasFlag(w: World, row: Json) {
    Has(row, Accepted) &&
    match row.fields[Accepted]
    case Str(s) => w.intOfText(s).Ok?
    case v => v.Int? || v.Bool? || v.Float? || v.NegativeZero?
  }

  predicate ShareFits(w: World, shares: seq<Json>, row: Json) {
    Has(row, ShareSeq) && Le(w, row.fields[ShareSeq], LastSequence(shares)) == Ok(false) && HasFlag(w, row)
  }

  predicate SameProgram(a: Json, b: Json) {
    Has(a, Program) && Has(b, Program) && SameKey(a.fields[Program], b.fields[Program])
  }

  predicate SameLabel(a: Json, b: Json) {
    && SameProgram(a, b)
    && Has(a, Recipient) && Has(b, Recipient) && SameKey(a.fields[Recipient], b.fields[Recipient])
    && Has(a, OrderKey) && Has(b, OrderKey) && SameKey(a.fields[OrderKey], b.fields[OrderKey])
  }

  predicate HasAmounts(w: World, row: Json) {
    HasAmount(w, row, GrossAmount) && HasAmount(w, row, OnchainAmount)
  }

  /** What the rows leave owed to `row`'s program, or to its label: gross less on-chain. */
  function Owed(w: World, rows: seq<Json>, row: Json, perLabel: bool): int {
    if rows == [] then 0
    else
      var last := rows[|rows| - 1];
      Owed(w, rows[..|rows| - 1], row, perLabel)
      + if (if perLabel then SameLabel(last, row) else SameProgram(last, row)) && HasAmounts(w, last) then
          AmountIn(w, last, GrossAmount) - AmountIn(w, last, OnchainAmount)
        else 0
  }

  /** The row's three balances are those of a chain at `prior`. */
  predicate OnChainAt(w: World, row: Json, prior: int)
    requires HasAmounts(w, row)
  {
    var owed := prior + AmountIn(w, row, GrossAmount);
    && Stored(w, row, PriorBalance, prior)
    && Stored(w, row, CandidateBalance, owed)
    && Stored(w, row, CarryBalance, owed - AmountIn(w, row, OnchainAmount))
  }

  /** The balances can be read up to the first that is not the chain's. */
  predicate ComparedAt(w: World, row: Json, prior: int)
    requires HasAmounts(w, row)
  {
    && HasAmount(w, row, PriorBalance)
    && (Stored(w, row, PriorBalance, prior) ==>
          && HasAmount(w, row, CandidateBalance)
          && (Stored(w, row, CandidateBalance, prior + AmountIn(w, row, GrossAmount)) ==>
                HasAmount(w, row, CarryBalance)))
  }

  predicate CarryReads(w: World, row: Json) {
    && Has(row, BlockHeight) && Has(row, CarrySeq) && HasAmounts(w, row)
    && Has(row, Program) && Keyed(row.fields[Program])
    && Has(row, Recipient) && Keyed(row.fields[Recipient])
    && Has(row, OrderKey) && Keyed(row.fields[OrderKey])
    && Has(row, BlockHash) && Keyed(row.fields[BlockHash])
  }

  /** The row is above the last in chain order. */
  predicate InOrder(w: World, rows: seq<Json>, row: Json) {
    rows == [] ||
    var last := rows[|rows| - 1];
    && Has(row, BlockHeight) && Has(row, CarrySeq) && Has(last, BlockHeight) && Has(last, CarrySeq)
    && PairLe(w, (row.fields[BlockHeight], row.fields[CarrySeq]), (last.fields[BlockHeight], last.fields[CarrySeq]))
       == Ok(false)
  }

  predicate CarryFits(w: World, blocks: seq<Json>, rows: seq<Json>, row: Json) {
    && CarryReads(w, row) && InOrder(w, rows, row)
    && (!IsMarked(blocks, row.fields[BlockHash]) ==>
          && ComparedAt(w, row, Owed(w, rows, row, false)) && ComparedAt(w, row, Owed(w, rows, row, true))
          && (OnChainAt(w, row, Owed(w, rows, row, true)) || Keyed(row.fields[CarrySeq])))
  }

  predicate RowFits(w: World, before: seq<string>, kind: Hashed, row: Json) {
    match kind
    case Blocks => BlockFits(row) && Rows(w, before, Accounting(ActiveCarry)) == []
    case ActiveCarry =>
      CarryFits(w, Rows(w, before, Accounting(Blocks)), Rows(w, before, Accounting(ActiveCarry)), row)
    case Shares => ShareFits(w, Rows(w, before, Accounting(Shares)), row)
    case Candidates => Has(row, StateField)
    case _ => true
  }

  /** The line may follow the lines before it. */
  predicate Admits(w: World, before: seq<string>, line: string) {
    Rows(w, before, Complete) == [] &&
    match RecordIn(w, line)
    case None => false
    case Some((kind, row)) =>
      match kind
      case Complete => row == Bool(true) && Reports(w, before) != []
      case Integrity => Reports(w, before) == []
      case Deferral => row.Obj? && Rows(w, before, Deferral) == []
      case Accounting(k) => Reports(w, before) == [] && w.canonical(row).Ok? && RowFits(w, before, k, row)
      case _ => false
  }

  predicate AdmittedAt(w: World, lines: seq<string>, k: nat) {
    k < |lines| ==> Admits(w, lines[..k], lines[k])
  }

  /** Each line may follow the lines before it. */
  ghost predicate Admitted(w: World, lines: seq<string>) {
    forall k: nat :: AdmittedAt(w, lines, k)
  }

  // ----- the state the lines leave

  lemma KeyMeans(a: Json, b: Json)
    ensures Hash(a).Ok? <==> Keyed(a)
    ensures Keyed(a) && Keyed(b) ==> (Hash(a) == Hash(b) <==> SameKey(a, b))
  {
  }

  lemma AmountMeans(w: World, row: Json, f: Field, n: int)
    ensures Amount(w, row, f) == Ok(n) <==> Stored(w, row, f, n)
    ensures Amount(w, row, f).Ok? <==> HasAmount(w, row, f)
    ensures HasAmount(w, row, f) ==> Amount(w, row, f) == Ok(AmountIn(w, row, f))
  {
  }

  lemma FlagMeans(w: World, row: Json)
    ensures Has(row, Accepted) ==> (IntOf(w, row.fields[Accepted]).Ok? <==> HasFlag(w, row))
    ensures HasFlag(w, row) ==> FlagIs(w, row.fields[Accepted], IntOf(w, row.fields[Accepted]).value)
  {
  }

  /** What the fields other than the chains say of the rows. */
  ghost predicate Means(w: World, lines: seq<string>, st: State) {
    && (st.complete <==> Rows(w, lines, Complete) != [])
    && |Reports(w, lines)| <= 1 && st.integrity == (if Reports(w, lines) == [] then Null else Reports(w, lines)[0])
    && |Rows(w, lines, Deferral)| <= 1
    && st.deferred == (if Rows(w, lines, Deferral) == [] then None else Some(Rows(w, lines, Deferral)[0]))
    && SharesMean(w, Rows(w, lines, Accounting(Shares)), st.shares)
    && CandidatesMean(Rows(w, lines, Accounting(Candidates)), st.candidates)
    && ChainsMean(w, Rows(w, lines, Accounting(Blocks)), Rows(w, lines, Accounting(ActiveCarry)), st.chains)
  }

  ghost predicate SharesMean(w: World, rows: seq<Json>, shares: ShareState) {
    shares.last == LastSequence(rows) && exists flags :: FlagsOf(w, rows, flags) && shares.accepted == Sum(flags)
  }

  predicate CandidatesMean(rows: seq<Json>, candidates: CandidateState) {
    && candidates.pending == InState(rows, "pending")
    && candidates.unfinished
       == |rows| - InState(rows, "submitted") - InState(rows, "abandoned") - InState(rows, "orphaned")
  }

  function PlaceOf(w: World, row: Json): (Json, Json)
    requires CarryReads(w, row)
  {
    (row.fields[BlockHeight], row.fields[CarrySeq])
  }

  ghost predicate ChainsMean(w: World, blocks: seq<Json>, rows: seq<Json>, ch: Chains) {
    && (ch.started <==> rows != []) && ch.head == HeadOf(w, rows)
    && (forall row :: row in rows ==> CarryReads(w, row))
    && (rows == [] ==> ch.order == None)
    && (rows != [] ==> ch.order == Some(PlaceOf(w, rows[|rows| - 1])))
    && (forall block :: MarkHolds(blocks, ch.marked, block))
    && forall k: nat :: LabelCompared(w, blocks, rows, k)
  }

  /** An unmarked row can be compared with its label's chain. */
  predicate LabelCompared(w: World, blocks: seq<Json>, rows: seq<Json>, k: nat) {
    k < |rows| && CarryReads(w, rows[k]) && !IsMarked(blocks, rows[k].fields[BlockHash]) ==>
      ComparedAt(w, rows[k], Owed(w, rows[..k], rows[k], true))
  }

  predicate Fed(w: World, lines: seq<string>, st: State, k: Hashed) {
    FedBy(w, Rows(w, lines, Accounting(k)), st.counts, st.fed, k)
  }

  /** The rows are counted, and their bytes are what was fed. */
  predicate FedBy(w: World, rows: seq<Json>, counts: map<Hashed, nat>, fed: map<Hashed, Bytes>, k: Hashed) {
    && (k in counts <==> rows != []) && (k in fed <==> rows != [])
    && (rows != [] ==> counts[k] == |rows| && fed[k] == Blob(w, rows))
  }

  // ----- one row

  lemma LastRow(rows: seq<Json>, row: Json)
    ensures (rows + [row])[..|rows + [row]| - 1] == rows && (rows + [row])[|rows + [row]| - 1] == row
  {
  }

  lemma CandidateStep(rows: seq<Json>, ca: CandidateState, row: Json)
    requires CandidatesMean(rows, ca)
    ensures CandidateRow(ca, row).Ok? <==> Has(row, StateField)
    ensures CandidateRow(ca, row).Ok? ==> CandidatesMean(rows + [row], CandidateRow(ca, row).value)
  {
    LastRow(rows, row);
  }

  lemma ShareStep(w: World, rows: seq<Json>, sh: ShareState, row: Json)
    requires SharesMean(w, rows, sh)
    ensures ShareRow(w, sh, row).Ok? <==> ShareFits(w, rows, row)
    ensures ShareRow(w, sh, row).Ok? ==> SharesMean(w, rows + [row], ShareRow(w, sh, row).value)
  {
    LastRow(rows, row);
    FlagMeans(w, row);
    if ShareRow(w, sh, row).Ok? {
      var flags :| FlagsOf(w, rows, flags) && sh.accepted == Sum(flags);
      var n := IntOf(w, row.fields[Accepted]).value;
      assert (flags + [n])[..|flags|] == flags;
      assert FlagsOf(w, rows + [row], flags + [n]) && Sum(flags + [n]) == Sum(flags) + n;
    }
  }

  predicate MarkHolds(blocks: seq<Json>, marked: set<Json>, block: Json) {
    Keyed(block) ==> (Hash(block).value in marked <==> IsMarked(blocks, block))
  }

  lemma BlockStep(blocks: seq<Json>, marked: set<Json>, ch: Chains, w: World, row: Json)
    requires ch.marked == marked && forall block :: MarkHolds(blocks, marked, block)
    ensures BlockRow(w, ch, row).Ok? <==> !ch.started && BlockFits(row)
    ensures BlockRow(w, ch, row).Ok? ==>
              forall block :: MarkHolds(blocks + [row], BlockRow(w, ch, row).value.marked, block)
    ensures BlockRow(w, ch, row).Ok? ==> BlockRow(w, ch, row).value == ch.(marked := BlockRow(w, ch, row).value.marked)
  {
    if BlockRow(w, ch, row).Ok? {
      var after := BlockRow(w, ch, row).value.marked;
      forall block
        ensures MarkHolds(blocks + [row], after, block)
      {
        assert MarkHolds(blocks, marked, block);
        if Keyed(block) {
          MarkedGrows(blocks, row, block);
          if MarksBlock(row, block) || (Marks(row) && Has(row, BlockHash)) {
            KeyMeans(row.fields[BlockHash], block);
          }
        }
      }
    }
  }

  lemma MarkedGrows(blocks: seq<Json>, row: Json, block: Json)
    ensures IsMarked(blocks + [row], block) <==> IsMarked(blocks, block) || MarksBlock(row, block)
  {
    var longer := blocks + [row];
    if k :| 0 <= k < |blocks| && MarksBlock(blocks[k], block) {
      assert MarksBlock(longer[k], block);
    }
    if MarksBlock(row, block) {
      assert MarksBlock(longer[|blocks|], block);
    }
  }

  // ----- one carry row

  lemma CarryOfMeans(w: World, row: Json)
    requires Has(row, BlockHeight) && Has(row, CarrySeq)
    ensures CarryOf(w, row).Ok? <==> CarryReads(w, row)
    ensures CarryReads(w, row) ==>
              var program := Hash(row.fields[Program]).value;
              CarryOf(w, row)
              == Ok(Carry(program, (Hash(row.fields[Recipient]).value, Hash(row.fields[OrderKey]).value, program),
                          AmountIn(w, row, GrossAmount), AmountIn(w, row, OnchainAmount),
                          Hash(row.fields[BlockHash]).value))
  {
    AmountMeans(w, row, GrossAmount, 0);
    AmountMeans(w, row, OnchainAmount, 0);
  }

  lemma OffMeans(w: World, row: Json, prior: int)
    requires HasAmounts(w, row)
    ensures var off := OffChain(w, row, prior, AmountIn(w, row, GrossAmount), AmountIn(w, row, OnchainAmount));
            (off.Ok? <==> ComparedAt(w, row, prior)) && (off == Ok(false) <==> OnChainAt(w, row, prior))
  {
    var owed := prior + AmountIn(w, row, GrossAmount);
    AmountMeans(w, row, PriorBalance, prior);
    AmountMeans(w, row, CandidateBalance, owed);
    AmountMeans(w, row, CarryBalance, owed - AmountIn(w, row, OnchainAmount));
  }

  /** The rows as the chains post them. */
  predicate Posts(w: World, rows: seq<Json>, ps: seq<Posted>) {
    |ps| == |rows| && forall k :: 0 <= k < |rows| ==> CarryReads(w, rows[k]) && ps[k] == PostedOf(w, rows[k])
  }

  function PostedOf(w: World, row: Json): Posted
    requires CarryReads(w, row)
  {
    CarryOfMeans(w, row);
    Posted(CarryOf(w, row).value, row)
  }

  /** Two rows are posted on one program or label exactly when they name the same. */
  lemma PostedAlike(w: World, a: Json, b: Json)
    requires CarryReads(w, a) && CarryReads(w, b)
    ensures PostedOf(w, a).carry.program == PostedOf(w, b).carry.program <==> SameProgram(a, b)
    ensures PostedOf(w, a).carry.paid == PostedOf(w, b).carry.paid <==> SameLabel(a, b)
    ensures PostedOf(w, a).carry.gross == AmountIn(w, a, GrossAmount)
    ensures PostedOf(w, a).carry.onchain == AmountIn(w, a, OnchainAmount)
  {
    CarryOfMeans(w, a);
    CarryOfMeans(w, b);
    KeyMeans(a.fields[Program], b.fields[Program]);
    KeyMeans(a.fields[Recipient], b.fields[Recipient]);
    KeyMeans(a.fields[OrderKey], b.fields[OrderKey]);
  }

  lemma {:induction false} Owes(w: World, rows: seq<Json>, ps: seq<Posted>, row: Json)
    requires Posts(w, rows, ps) && CarryReads(w, row)
    ensures ProgramTotal(ps, PostedOf(w, row).carry.program) == Owed(w, rows, row, false)
    ensures LabelTotal(ps, PostedOf(w, row).carry.paid) == Owed(w, rows, row, true)
  {
    if rows != [] {
      var n := |rows| - 1;
      Owes(w, rows[..n], ps[..n], row);
      PostedAlike(w, rows[n], row);
    }
  }

  /** What the balances of the chains say before a row. */
  predicate Weighs(w: World, rows: seq<Json>, ch: Chains, row: Json)
    requires CarryReads(w, row)
  {
    var c := PostedOf(w, row).carry;
    At(ch.byProgram, c.program, 0) == Owed(w, rows, row, false) && At(ch.byLabel, c.paid, 0) == Owed(w, rows, row, true)
  }

  lemma BreaksMean(w: World, blocks: seq<Json>, rows: seq<Json>, ch: Chains, row: Json)
    requires CarryReads(w, row) && Weighs(w, rows, ch, row) && forall block :: MarkHolds(blocks, ch.marked, block)
    ensures CarryBreaks(w, ch, row, PostedOf(w, row).carry).Ok?
       <==> (!IsMarked(blocks, row.fields[BlockHash]) ==>
               && ComparedAt(w, row, Owed(w, rows, row, false)) && ComparedAt(w, row, Owed(w, rows, row, true))
               && (OnChainAt(w, row, Owed(w, rows, row, true)) || Keyed(row.fields[CarrySeq])))
  {
    CarryOfMeans(w, row);
    OffMeans(w, row, Owed(w, rows, row, false));
    OffMeans(w, row, Owed(w, rows, row, true));
    assert MarkHolds(blocks, ch.marked, row.fields[BlockHash]);
  }

  lemma OrderMeans(w: World, blocks: seq<Json>, rows: seq<Json>, ch: Chains, row: Json)
    requires ChainsMean(w, blocks, rows, ch)
    ensures CarryOrdered(w, ch.order, row).Ok? <==> Has(row, BlockHeight) && Has(row, CarrySeq) && InOrder(w, rows, row)
    ensures CarryOrdered(w, ch.order, row).Ok? ==>
              CarryOrdered(w, ch.order, row).value == (row.fields[BlockHeight], row.fields[CarrySeq])
  {
    if rows != [] {
      assert rows[|rows| - 1] in rows;
    }
  }

  lemma ComparedNext(w: World, blocks: seq<Json>, rows: seq<Json>, row: Json)
    requires CarryFits(w, blocks, rows, row) && forall k: nat :: LabelCompared(w, blocks, rows, k)
    ensures forall k: nat :: LabelCompared(w, blocks, rows + [row], k)
  {
    forall k: nat
      ensures LabelCompared(w, blocks, rows + [row], k)
    {
      assert LabelCompared(w, blocks, rows, k);
      if k <= |rows| {
        assert (rows + [row])[..k] == rows[..k];
      }
    }
  }

  lemma CarryRowFits(w: World, blocks: seq<Json>, rows: seq<Json>, ch: Chains, row: Json, canonical: Bytes)
    requires ChainsMean(w, blocks, rows, ch) && (CarryReads(w, row) ==> Weighs(w, rows, ch, row))
    ensures CarryRow(w, ch, row, canonical).Ok? <==> CarryFits(w, blocks, rows, row)
  {
    OrderMeans(w, blocks, rows, ch, row);
    if Has(row, BlockHeight) && Has(row, CarrySeq) {
      CarryOfMeans(w, row);
    }
    if CarryReads(w, row) && InOrder(w, rows, row) {
      BreaksMean(w, blocks, rows, CarryStart(w, ch, row, canonical).value, row);
    }
  }

  lemma CarryRowLeaves(w: World, blocks: seq<Json>, rows: seq<Json>, ch: Chains, row: Json, canonical: Bytes)
    requires ChainsMean(w, blocks, rows, ch) && CarryFits(w, blocks, rows, row)
    requires w.canonical(row) == Ok(canonical) && CarryRow(w, ch, row, canonical).Ok?
    ensures ChainsMean(w, blocks, rows + [row], CarryRow(w, ch, row, canonical).value)
  {
    LastRow(rows, row);
    OrderMeans(w, blocks, rows, ch, row);
    CarryRowMoves(w, ch, row, canonical);
    CarryRowParts(w, ch, row, canonical);
    ComparedNext(w, blocks, rows, row);
  }

  lemma CarryRowMeans(w: World, blocks: seq<Json>, rows: seq<Json>, ch: Chains, row: Json, canonical: Bytes)
    requires ChainsMean(w, blocks, rows, ch) && (CarryReads(w, row) ==> Weighs(w, rows, ch, row))
    requires w.canonical(row) == Ok(canonical)
    ensures CarryRow(w, ch, row, canonical).Ok? <==> CarryFits(w, blocks, rows, row)
    ensures CarryRow(w, ch, row, canonical).Ok? ==>
              ChainsMean(w, blocks, rows + [row], CarryRow(w, ch, row, canonical).value)
  {
    CarryRowFits(w, blocks, rows, ch, row, canonical);
    if CarryRow(w, ch, row, canonical).Ok? {
      CarryRowLeaves(w, blocks, rows, ch, row, canonical);
    }
  }

  // ----- one line

  lemma RecordMeans(w: World, line: string)
    ensures RecordIn(w, line).Some? ==>
              Parse(w, line).Ok? && RecordIn(w, line).value
                == (w.kind(Parse(w, line).value.kind), Parse(w, line).value.row)
    ensures RecordIn(w, line).None? && Parse(w, line).Ok? ==>
              var kind := w.kind(Parse(w, line).value.kind); kind == Unknown || kind.UnhashableKind?
  {
  }

  lemma RowsNext(w: World, lines: seq<string>, line: string, kind: Kind)
    ensures Rows(w, lines + [line], kind)
         == Rows(w, lines, kind)
            + if RecordIn(w, line).Some? && RecordIn(w, line).value.0 == kind then [RecordIn(w, line).value.1] else []
  {
    assert (lines + [line])[..|lines|] == lines;
  }

  lemma ReportsNext(w: World, lines: seq<string>, line: string)
    ensures RecordIn(w, line).None? || RecordIn(w, line).value.0 != Integrity ==>
              Reports(w, lines + [line]) == Reports(w, lines)
    ensures forall row :: RecordIn(w, line) == Some((Integrity, row)) ==>
              Reports(w, lines + [line]) == Reports(w, lines) + if row == Null then [] else [row]
  {
    RowsNext(w, lines, line, Integrity);
    if RecordIn(w, line).Some? && RecordIn(w, line).value.0 == Integrity {
      LastRow(Rows(w, lines, Integrity), RecordIn(w, line).value.1);
    } else {
      assert Rows(w, lines + [line], Integrity) == Rows(w, lines, Integrity);
    }
  }

  /** What the chains' balances say of any carry row that may come next. */
  ghost predicate AllWeigh(w: World, rows: seq<Json>, ch: Chains) {
    forall row :: CarryReads(w, row) ==> Weighs(w, rows, ch, row)
  }

  lemma CarryChecked(w: World, lines: seq<string>, st: State, row: Json, canonical: Bytes)
    requires Means(w, lines, st) && AllWeigh(w, Rows(w, lines, Accounting(ActiveCarry)), st.chains)
    ensures CarryRow(w, st.chains, row, canonical).Ok? <==> RowFits(w, lines, ActiveCarry, row)
  {
    CarryRowFits(w, Rows(w, lines, Accounting(Blocks)), Rows(w, lines, Accounting(ActiveCarry)), st.chains, row,
                 canonical);
  }

  lemma CheckedMeans(w: World, lines: seq<string>, st: State, kind: Hashed, row: Json, canonical: Bytes)
    requires Means(w, lines, st) && AllWeigh(w, Rows(w, lines, Accounting(ActiveCarry)), st.chains)
    requires w.canonical(row) == Ok(canonical)
    ensures Checked(w, st, kind, row, canonical).Ok? <==> RowFits(w, lines, kind, row)
  {
    match kind
    case Blocks =>
      BlockStep(Rows(w, lines, Accounting(Blocks)), st.chains.marked, st.chains, w, row);
    case ActiveCarry => CarryChecked(w, lines, st, row, canonical);
    case Shares => ShareStep(w, Rows(w, lines, Accounting(Shares)), st.shares, row);
    case Candidates => CandidateStep(Rows(w, lines, Accounting(Candidates)), st.candidates, row);
    case _ =>
  }

  /** The row passes the checks of its kind. */
  predicate Passes(w: World, st: State, k: Hashed, row: Json) {
    w.canonical(row).Ok? &&
    var canonical := w.canonical(row).value;
    Checked(w, Feed(st, k, 1, canonical + [NEWLINE]), k, row, canonical).Ok?
  }

  /** The state accepts the line. */
  predicate Takes(w: World, st: State, line: string) {
    !st.complete &&
    match RecordIn(w, line)
    case None => false
    case Some((kind, row)) =>
      match kind
      case Complete => row == Bool(true) && !st.integrity.Null?
      case Integrity => st.integrity.Null?
      case Deferral => row.Obj? && st.deferred.None?
      case Accounting(k) => st.integrity.Null? && Passes(w, st, k, row)
      case _ => false
  }

  lemma LineTakes(w: World, st: State, line: string)
    ensures Line(w, st, line).Ok? <==> Takes(w, st, line)
  {
    RecordMeans(w, line);
  }

  lemma PassesExactly(w: World, lines: seq<string>, st: State, k: Hashed, row: Json)
    requires Means(w, lines, st) && AllWeigh(w, Rows(w, lines, Accounting(ActiveCarry)), st.chains)
    ensures Passes(w, st, k, row) <==> w.canonical(row).Ok? && RowFits(w, lines, k, row)
  {
    if w.canonical(row).Ok? {
      var canonical := w.canonical(row).value;
      CheckedMeans(w, lines, Feed(st, k, 1, canonical + [NEWLINE]), k, row, canonical);
    }
  }

  lemma LineFits(w: World, lines: seq<string>, st: State, line: string)
    requires Means(w, lines, st) && AllWeigh(w, Rows(w, lines, Accounting(ActiveCarry)), st.chains)
    ensures Line(w, st, line).Ok? <==> Admits(w, lines, line)
  {
    ReportRead(w, lines, st);
    if RecordIn(w, line).Some? && RecordIn(w, line).value.0.Accounting? {
      PassesExactly(w, lines, st, RecordIn(w, line).value.0.of, RecordIn(w, line).value.1);
    }
    LineTakes(w, st, line);
  }

  lemma {:induction false} NoneNull(rows: seq<Json>)
    ensures forall row :: row in NotNull(rows) ==> row in rows && row != Null
  {
    if rows != [] {
      NoneNull(rows[..|rows| - 1]);
    }
  }

  lemma ReportRead(w: World, lines: seq<string>, st: State)
    requires Means(w, lines, st)
    ensures st.integrity.Null? <==> Reports(w, lines) == []
  {
    NoneNull(Rows(w, lines, Integrity));
    if Reports(w, lines) != [] {
      assert Reports(w, lines)[0] in Reports(w, lines);
    }
  }

  /** What a row of kind `k` adds to the rows of kind `of`. */
  function Added(of: Hashed, k: Hashed, row: Json): seq<Json> {
    if of == k then [row] else []
  }

  lemma AddedNext(w: World, lines: seq<string>, line: string, k: Hashed, row: Json, of: Hashed)
    requires RecordIn(w, line) == Some((Accounting(k), row))
    ensures Rows(w, lines + [line], Accounting(of)) == Rows(w, lines, Accounting(of)) + Added(of, k, row)
  {
    RowsNext(w, lines, line, Accounting(of));
  }

  lemma CheckedShares(w: World, st: State, k: Hashed, row: Json, canonical: Bytes, rows: seq<Json>)
    requires SharesMean(w, rows, st.shares) && Checked(w, st, k, row, canonical).Ok?
    ensures SharesMean(w, rows + Added(Shares, k, row), Checked(w, st, k, row, canonical).value.shares)
  {
    if k.Shares? {
      ShareStep(w, rows, st.shares, row);
    } else {
      assert rows + Added(Shares, k, row) == rows;
    }
  }

  lemma CheckedCandidates(w: World, st: State, k: Hashed, row: Json, canonical: Bytes, rows: seq<Json>)
    requires CandidatesMean(rows, st.candidates) && Checked(w, st, k, row, canonical).Ok?
    ensures CandidatesMean(rows + Added(Candidates, k, row), Checked(w, st, k, row, canonical).value.candidates)
  {
    if k.Candidates? {
      CandidateStep(rows, st.candidates, row);
    } else {
      assert rows + Added(Candidates, k, row) == rows;
    }
  }

  lemma CheckedChains(w: World, st: State, k: Hashed, row: Json, canonical: Bytes, blocks: seq<Json>, rows: seq<Json>)
    requires ChainsMean(w, blocks, rows, st.chains) && AllWeigh(w, rows, st.chains)
    requires w.canonical(row) == Ok(canonical) && Checked(w, st, k, row, canonical).Ok?
    ensures ChainsMean(w, blocks + Added(Blocks, k, row), rows + Added(ActiveCarry, k, row),
                       Checked(w, st, k, row, canonical).value.chains)
  {
    if k.Blocks? {
      BlockStep(blocks, st.chains.marked, st.chains, w, row);
      assert rows + Added(ActiveCarry, k, row) == rows;
    } else if k.ActiveCarry? {
      CarryRowMeans(w, blocks, rows, st.chains, row, canonical);
      assert blocks + Added(Blocks, k, row) == blocks;
    } else {
      assert rows + Added(ActiveCarry, k, row) == rows && blocks + Added(Blocks, k, row) == blocks;
    }
  }

  lemma CheckedRest(w: World, st: State, k: Hashed, row: Json, canonical: Bytes)
    requires Checked(w, st, k, row, canonical).Ok?
    ensures var after := Checked(w, st, k, row, canonical).value;
            && after.integrity == st.integrity && after.complete == st.complete && after.deferred == st.deferred
            && after.fed == st.fed && after.counts == st.counts
  {
  }

  lemma AccountingMeans(w: World, lines: seq<string>, st: State, line: string, k: Hashed, row: Json, canonical: Bytes)
    requires Means(w, lines, st) && AllWeigh(w, Rows(w, lines, Accounting(ActiveCarry)), st.chains)
    requires RecordIn(w, line) == Some((Accounting(k), row)) && w.canonical(row) == Ok(canonical)
    requires Checked(w, st, k, row, canonical).Ok?
    ensures Means(w, lines + [line], Checked(w, st, k, row, canonical).value)
  {
    AddedNext(w, lines, line, k, row, Shares);
    AddedNext(w, lines, line, k, row, Candidates);
    AddedNext(w, lines, line, k, row, Blocks);
    AddedNext(w, lines, line, k, row, ActiveCarry);
    CheckedShares(w, st, k, row, canonical, Rows(w, lines, Accounting(Shares)));
    CheckedCandidates(w, st, k, row, canonical, Rows(w, lines, Accounting(Candidates)));
    CheckedChains(w, st, k, row, canonical, Rows(w, lines, Accounting(Blocks)),
                  Rows(w, lines, Accounting(ActiveCarry)));
    CheckedRest(w, st, k, row, canonical);
    RestNext(w, lines, line, k, row);
  }

  lemma RestNext(w: World, lines: seq<string>, line: string, k: Hashed, row: Json)
    requires RecordIn(w, line) == Some((Accounting(k), row))
    ensures Rows(w, lines + [line], Complete) == Rows(w, lines, Complete)
    ensures Rows(w, lines + [line], Deferral) == Rows(w, lines, Deferral)
    ensures Reports(w, lines + [line]) == Reports(w, lines)
  {
    RowsNext(w, lines, line, Complete);
    RowsNext(w, lines, line, Deferral);
    ReportsNext(w, lines, line);
  }

  /** A line of no accounting kind adds to none of the rows that are hashed. */
  lemma NoneAdded(w: World, lines: seq<string>, line: string, k: Hashed)
    requires RecordIn(w, line).Some? && !RecordIn(w, line).value.0.Accounting?
    ensures Rows(w, lines + [line], Accounting(k)) == Rows(w, lines, Accounting(k))
  {
    RowsNext(w, lines, line, Accounting(k));
  }

  /** What a record of no accounting kind changes. */
  lemma OtherParts(w: World, st: State, kind: Json, row: Json, after: State)
    requires !w.kind(kind).Accounting? && Record(w, st, kind, row, None) == Ok(after)
    ensures after.shares == st.shares && after.candidates == st.candidates && after.chains == st.chains
    ensures after.complete == (st.complete || w.kind(kind).Complete?)
    ensures after.integrity == if w.kind(kind).Integrity? then row else st.integrity
    ensures w.kind(kind).Integrity? ==> st.integrity.Null?
    ensures after.deferred == if w.kind(kind).Deferral? then Some(row) else st.deferred
    ensures w.kind(kind).Deferral? ==> st.deferred.None?
  {
  }

  lemma OtherMeans(w: World, lines: seq<string>, st: State, line: string, kind: Json, row: Json, after: State)
    requires Means(w, lines, st) && RecordIn(w, line) == Some((w.kind(kind), row)) && !w.kind(kind).Accounting?
    requires Record(w, st, kind, row, None) == Ok(after)
    ensures Means(w, lines + [line], after)
  {
    ReportRead(w, lines, st);
    OtherParts(w, st, kind, row, after);
    RowsNext(w, lines, line, Complete);
    RowsNext(w, lines, line, Deferral);
    ReportsNext(w, lines, line);
    NoneAdded(w, lines, line, Shares);
    NoneAdded(w, lines, line, Candidates);
    NoneAdded(w, lines, line, Blocks);
    NoneAdded(w, lines, line, ActiveCarry);
  }

  lemma LineMeans(w: World, lines: seq<string>, st: State, line: string)
    requires Means(w, lines, st) && AllWeigh(w, Rows(w, lines, Accounting(ActiveCarry)), st.chains)
    requires Line(w, st, line).Ok?
    ensures Means(w, lines + [line], Line(w, st, line).value)
  {
    RecordMeans(w, line);
    var p := Parse(w, line).value;
    if w.kind(p.kind).Accounting? {
      var k, canonical := w.kind(p.kind).of, w.canonical(p.row).value;
      AccountingMeans(w, lines, Feed(st, k, 1, canonical + [NEWLINE]), line, k, p.row, canonical);
    } else {
      OtherMeans(w, lines, st, line, p.kind, p.row, Line(w, st, line).value);
    }
  }

  /** A line feeds the rows of its own kind, and those only. */
  lemma LineFeeds(w: World, st: State, line: string)
    requires Line(w, st, line).Ok?
    ensures RecordIn(w, line).Some?
    ensures var after, kind, row := Line(w, st, line).value, RecordIn(w, line).value.0, RecordIn(w, line).value.1;
            if kind.Accounting? then
              && w.canonical(row).Ok?
              && after.counts == st.counts[kind.of := At(st.counts, kind.of, 0) + 1]
              && after.fed == st.fed[kind.of := At(st.fed, kind.of, []) + (w.canonical(row).value + [NEWLINE])]
            else after.counts == st.counts && after.fed == st.fed
  {
    RecordMeans(w, line);
    var p := Parse(w, line).value;
    if w.kind(p.kind).Accounting? {
      var k, canonical := w.kind(p.kind).of, w.canonical(p.row).value;
      CheckedRest(w, Feed(st, k, 1, canonical + [NEWLINE]), k, p.row, canonical);
    }
  }

  lemma FedGrows(w: World, rows: seq<Json>, counts: map<Hashed, nat>, fed: map<Hashed, Bytes>, k: Hashed, row: Json)
    requires FedBy(w, rows, counts, fed, k) && w.canonical(row).Ok?
    ensures FedBy(w, rows + [row], counts[k := At(counts, k, 0) + 1],
                  fed[k := At(fed, k, []) + (w.canonical(row).value + [NEWLINE])], k)
  {
    BlobNext(w, rows, row);
  }

  lemma FedNext(w: World, lines: seq<string>, st: State, line: string, k: Hashed)
    requires Fed(w, lines, st, k) && Line(w, st, line).Ok?
    ensures Fed(w, lines + [line], Line(w, st, line).value, k)
  {
    LineFeeds(w, st, line);
    RowsNext(w, lines, line, Accounting(k));
    var rows, row := Rows(w, lines, Accounting(k)), RecordIn(w, line).value.1;
    if RecordIn(w, line).value.0 == Accounting(k) {
      FedGrows(w, rows, st.counts, st.fed, k, row);
    } else {
      assert rows + [] == rows;
    }
  }

  lemma BlobNext(w: World, rows: seq<Json>, row: Json)
    requires w.canonical(row).Ok?
    ensures Blob(w, rows + [row]) == Blob(w, rows) + (w.canonical(row).value + [NEWLINE])
  {
    LastRow(rows, row);
  }

  lemma PostsNext(w: World, lines: seq<string>, st: State, line: string, ps: seq<Posted>)
    requires Line(w, st, line).Ok? && Posts(w, Rows(w, lines, Accounting(ActiveCarry)), ps)
    ensures Posts(w, Rows(w, lines + [line], Accounting(ActiveCarry)), ps + PostedBy(w, line))
  {
    RecordMeans(w, line);
    RowsNext(w, lines, line, Accounting(ActiveCarry));
    var kind, row := RecordIn(w, line).value.0, RecordIn(w, line).value.1;
    if kind == Accounting(ActiveCarry) {
      CarryOfMeans(w, row);
    }
  }

  lemma AllWeighs(w: World, rows: seq<Json>, ps: seq<Posted>, ch: Chains)
    requires Totals(ps, ch) && Posts(w, rows, ps)
    ensures AllWeigh(w, rows, ch)
  {
    forall row | CarryReads(w, row)
      ensures Weighs(w, rows, ch, row)
    {
      Owes(w, rows, ps, row);
      assert ProgramHolds(ps, ch, PostedOf(w, row).carry.program) && LabelHolds(ps, ch, PostedOf(w, row).carry.paid);
    }
  }

  // ----- all the lines

  /** What the state that accepted lines leave says of their rows. */
  ghost predicate Tallied(w: World, lines: seq<string>, st: State) {
    && Means(w, lines, st) && (forall k :: Fed(w, lines, st, k))
    && Posts(w, Rows(w, lines, Accounting(ActiveCarry)), AllPosted(w, lines))
  }

  lemma AllPostedNext(w: World, before: seq<string>, line: string)
    ensures AllPosted(w, before + [line]) == AllPosted(w, before) + PostedBy(w, line)
  {
    assert (before + [line])[..|before|] == before;
  }

  lemma AllFedNext(w: World, before: seq<string>, st: State, line: string)
    requires Line(w, st, line).Ok? && forall k :: Fed(w, before, st, k)
    ensures forall k :: Fed(w, before + [line], Line(w, st, line).value, k)
  {
    forall k
      ensures Fed(w, before + [line], Line(w, st, line).value, k)
    {
      FedNext(w, before, st, line, k);
    }
  }

  lemma TalliedNext(w: World, before: seq<string>, st: State, line: string)
    requires Tallied(w, before, st) && Balanced(w, AllPosted(w, before), st.chains)
    ensures Line(w, st, line).Ok? <==> Admits(w, before, line)
    ensures Line(w, st, line).Ok? ==> Tallied(w, before + [line], Line(w, st, line).value)
  {
    AllWeighs(w, Rows(w, before, Accounting(ActiveCarry)), AllPosted(w, before), st.chains);
    LineFits(w, before, st, line);
    if Line(w, st, line).Ok? {
      LineMeans(w, before, st, line);
      PostsNext(w, before, st, line, AllPosted(w, before));
      AllPostedNext(w, before, line);
      AllFedNext(w, before, st, line);
    }
  }

  lemma SameAdmitted(w: World, lines: seq<string>, n: nat, k: nat)
    requires k < n <= |lines|
    ensures AdmittedAt(w, lines[..n], k) <==> AdmittedAt(w, lines, k)
  {
    assert lines[..n][..k] == lines[..k] && lines[..n][k] == lines[k];
  }

  lemma AdmittedNext(w: World, lines: seq<string>)
    requires lines != []
    ensures var n := |lines| - 1; Admitted(w, lines) <==> Admitted(w, lines[..n]) && AdmittedAt(w, lines, n)
  {
    var n := |lines| - 1;
    forall k: nat
      ensures k < n ==> (AdmittedAt(w, lines[..n], k) <==> AdmittedAt(w, lines, k))
    {
      if k < n {
        SameAdmitted(w, lines, n, k);
      }
    }
  }

  lemma AcceptedNext(w: World, before: seq<string>, line: string)
    requires Lines(w, INITIAL, before).Ok? && Tallied(w, before, Lines(w, INITIAL, before).value)
    ensures var next := Line(w, Lines(w, INITIAL, before).value, line);
            (next.Ok? <==> Admits(w, before, line)) && (next.Ok? ==> Tallied(w, before + [line], next.value))
  {
    AlwaysBalanced(w, before);
    TalliedNext(w, before, Lines(w, INITIAL, before).value, line);
  }

  /** The lines are accepted exactly when each may follow those before it, and then the state is what
      their rows say. */
  ghost predicate AcceptedSo(w: World, lines: seq<string>) {
    && (Lines(w, INITIAL, lines).Ok? <==> Admitted(w, lines))
    && (Lines(w, INITIAL, lines).Ok? ==> Tallied(w, lines, Lines(w, INITIAL, lines).value))
  }

  lemma AcceptedLonger(w: World, before: seq<string>, line: string, lines: seq<string>)
    requires AcceptedSo(w, before) && lines == before + [line]
    ensures AcceptedSo(w, lines)
  {
    assert lines[..|before|] == before && lines[|before|] == line;
    LastLine(w, INITIAL, lines);
    AdmittedNext(w, lines);
    if Lines(w, INITIAL, before).Ok? {
      AcceptedNext(w, before, line);
    }
  }

  lemma {:induction false} ZeroHead(n: nat)
    ensures Zeros(n) == seq(n, _ => 0)
  {
    if n != 0 {
      ZeroHead(n - 1);
    }
  }

  lemma NothingMeans(w: World)
    ensures AcceptedSo(w, [])
  {
    assert FlagsOf(w, [], []) && Sum([]) == 0;
    ZeroHead(32);
    assert HeadOf(w, []) == ZERO_HEAD;
  }

  lemma {:induction false} AcceptedExactly(w: World, lines: seq<string>)
    ensures AcceptedSo(w, lines)
  {
    if lines == [] {
      NothingMeans(w);
    } else {
      var n := |lines| - 1;
      AcceptedExactly(w, lines[..n]);
      AcceptedLonger(w, lines[..n], lines[n], lines);
    }
  }

  // ----- the report

  /** The row is on a marked block, or on its program's chain. */
  predicate OnProgram(w: World, blocks: seq<Json>, rows: seq<Json>, k: nat) {
    && k < |rows| && CarryReads(w, rows[k])
    && (IsMarked(blocks, rows[k].fields[BlockHash]) || OnChainAt(w, rows[k], Owed(w, rows[..k], rows[k], false)))
  }

  /** The row is on no marked block, and off its label's chain. */
  predicate OffLabelAt(w: World, blocks: seq<Json>, rows: seq<Json>, k: nat) {
    && k < |rows| && CarryReads(w, rows[k])
    && !IsMarked(blocks, rows[k].fields[BlockHash]) && !OnChainAt(w, rows[k], Owed(w, rows[..k], rows[k], true))
  }

  predicate FindsRow(w: World, blocks: seq<Json>, rows: seq<Json>, k: nat, sequence: Json) {
    OffLabelAt(w, blocks, rows, k) && SameKey(rows[k].fields[CarrySeq], sequence)
  }

  function BlockOf(finding: Json): Json {
    if Has(finding, BlockHash) then finding.fields[BlockHash] else Null
  }

  /** The database's finding is of such a row, and names no marked block. */
  ghost predicate Clears(w: World, blocks: seq<Json>, rows: seq<Json>, finding: Json) {
    && Has(finding, CarrySeq) && finding.fields[CarrySeq] != Null
    && Keyed(BlockOf(finding)) && !IsMarked(blocks, BlockOf(finding))
    && exists k: nat :: FindsRow(w, blocks, rows, k, finding.fields[CarrySeq])
  }

  function Listed(report: Json): Json {
    if Has(report, Mismatches) then report.fields[Mismatches] else Arr([])
  }

  /** The database's report counts every carry row, no drift, and each mismatch it lists. */
  predicate Counted(report: Json, rows: seq<Json>) {
    && Has(report, DriftCount) && report.fields[DriftCount] == Int(0)
    && Has(report, CheckedRows) && report.fields[CheckedRows] == Int(|rows|)
    && Listed(report).Arr?
    && Has(report, MismatchCount) && report.fields[MismatchCount] == Int(|Listed(report).items|)
  }

  /** The lines end in a report: marked complete, with an integrity report that counts, every row on
      its program's chain, every finding cleared, and no share hashes beside a deferral. */
  ghost predicate Reportable(w: World, lines: seq<string>) {
    var blocks, rows := Rows(w, lines, Accounting(Blocks)), Rows(w, lines, Accounting(ActiveCarry));
    && Rows(w, lines, Complete) != []
    && Reports(w, lines) != [] && Counted(Reports(w, lines)[0], rows)
    && (forall finding :: finding in Listed(Reports(w, lines)[0]).items ==> Clears(w, blocks, rows, finding))
    && (forall k: nat :: k < |rows| ==> OnProgram(w, blocks, rows, k))
    && (Rows(w, lines, Deferral) == [] || Rows(w, lines, Accounting(ShareHashes)) == [])
  }

  lemma {:induction false} NoBreaks(w: World, ps: seq<Posted>, marked: set<Json>, n: nat)
    requires n <= |ps|
    requires forall k :: 0 <= k < n && Unmarked(marked, ps[k]) ==> OffProgram(w, ps, k) != Ok(true)
    ensures ProgramBreaks(w, ps, marked, n) == 0
  {
    if n != 0 {
      NoBreaks(w, ps, marked, n - 1);
    }
  }

  /** A posted row's program's chain, in terms of the rows. */
  lemma PostedProgram(w: World, blocks: seq<Json>, rows: seq<Json>, ps: seq<Posted>, marked: set<Json>, k: nat)
    requires Posts(w, rows, ps) && k < |rows| && forall block :: MarkHolds(blocks, marked, block)
    ensures CarryReads(w, rows[k])
    ensures Unmarked(marked, ps[k]) <==> !IsMarked(blocks, rows[k].fields[BlockHash])
    ensures OffProgram(w, ps, k) == Ok(false) <==> OnChainAt(w, rows[k], Owed(w, rows[..k], rows[k], false))
  {
    CarryOfMeans(w, rows[k]);
    assert MarkHolds(blocks, marked, rows[k].fields[BlockHash]);
    Owes(w, rows[..k], ps[..k], rows[k]);
    OffMeans(w, rows[k], Owed(w, rows[..k], rows[k], false));
  }

  /** And its label's. */
  lemma PostedLabel(w: World, rows: seq<Json>, ps: seq<Posted>, k: nat)
    requires Posts(w, rows, ps) && k < |rows|
    ensures CarryReads(w, rows[k])
    ensures OffLabel(w, ps, k) == Ok(false) <==> OnChainAt(w, rows[k], Owed(w, rows[..k], rows[k], true))
    ensures SequenceKey(ps[k]) == Hash(rows[k].fields[CarrySeq])
  {
    CarryOfMeans(w, rows[k]);
    Owes(w, rows[..k], ps[..k], rows[k]);
    OffMeans(w, rows[k], Owed(w, rows[..k], rows[k], true));
  }

  lemma OnProgramAt(w: World, blocks: seq<Json>, rows: seq<Json>, ps: seq<Posted>, ch: Chains, k: nat)
    requires Posts(w, rows, ps) && Readable(w, ps, ch, k) && forall block :: MarkHolds(blocks, ch.marked, block)
    requires k < |rows|
    ensures OnProgram(w, blocks, rows, k) <==> !Unmarked(ch.marked, ps[k]) || OffProgram(w, ps, k) != Ok(true)
  {
    PostedProgram(w, blocks, rows, ps, ch.marked, k);
  }

  lemma BreaksExactly(w: World, blocks: seq<Json>, rows: seq<Json>, ps: seq<Posted>, ch: Chains)
    requires Posts(w, rows, ps) && Breaks(w, ps, ch) && forall block :: MarkHolds(blocks, ch.marked, block)
    ensures ch.legacyBreaks == 0 <==> forall k: nat :: k < |rows| ==> OnProgram(w, blocks, rows, k)
  {
    forall k: nat | k < |rows|
      ensures OnProgram(w, blocks, rows, k) <==> !Unmarked(ch.marked, ps[k]) || OffProgram(w, ps, k) != Ok(true)
      ensures ch.legacyBreaks == 0 ==> OnProgram(w, blocks, rows, k)
    {
      assert Readable(w, ps, ch, k);
      OnProgramAt(w, blocks, rows, ps, ch, k);
      if ch.legacyBreaks == 0 && Unmarked(ch.marked, ps[k]) {
        NoProgramBreak(w, ps, ch.marked, |ps|, k);
      }
    }
    if forall k: nat :: k < |rows| ==> OnProgram(w, blocks, rows, k) {
      forall k | 0 <= k < |ps| && Unmarked(ch.marked, ps[k])
        ensures OffProgram(w, ps, k) != Ok(true)
      {
        assert OnProgram(w, blocks, rows, k);
      }
      NoBreaks(w, ps, ch.marked, |ps|);
    }
  }

  lemma OffLabelReads(w: World, rows: seq<Json>, ps: seq<Posted>, k: nat)
    requires Posts(w, rows, ps) && k < |rows|
    ensures OffLabel(w, ps, k).Ok? <==> ComparedAt(w, rows[k], Owed(w, rows[..k], rows[k], true))
  {
    CarryOfMeans(w, rows[k]);
    Owes(w, rows[..k], ps[..k], rows[k]);
    OffMeans(w, rows[k], Owed(w, rows[..k], rows[k], true));
  }

  /** Row `k` is one that the label breaks hold under `sequence`. */
  lemma FindsAt(w: World, blocks: seq<Json>, rows: seq<Json>, ps: seq<Posted>, marked: set<Json>, k: nat,
      sequence: Json)
    requires Posts(w, rows, ps) && k < |rows| && Keyed(sequence) && forall block :: MarkHolds(blocks, marked, block)
    requires LabelCompared(w, blocks, rows, k)
    ensures FindsRow(w, blocks, rows, k, sequence)
       <==> Unmarked(marked, ps[k]) && OffLabel(w, ps, k) == Ok(true) && SequenceKey(ps[k]) == Hash(sequence)
  {
    PostedProgram(w, blocks, rows, ps, marked, k);
    PostedLabel(w, rows, ps, k);
    KeyMeans(rows[k].fields[CarrySeq], sequence);
    OffLabelReads(w, rows, ps, k);
  }

  lemma FindsExactly(w: World, blocks: seq<Json>, rows: seq<Json>, ps: seq<Posted>, ch: Chains, sequence: Json)
    requires Posts(w, rows, ps) && Keyed(sequence) && forall block :: MarkHolds(blocks, ch.marked, block)
    requires BreakHolds(w, ps, ch, Hash(sequence).value) && forall k: nat :: LabelCompared(w, blocks, rows, k)
    ensures Hash(sequence).value in ch.labelBreaks <==> exists k: nat :: FindsRow(w, blocks, rows, k, sequence)
  {
    if Hash(sequence).value in ch.labelBreaks {
      var k: nat :| BreaksAt(w, ps, ch.marked, k, Hash(sequence).value);
      assert LabelCompared(w, blocks, rows, k);
      FindsAt(w, blocks, rows, ps, ch.marked, k, sequence);
    }
    if k: nat :| FindsRow(w, blocks, rows, k, sequence) {
      assert LabelCompared(w, blocks, rows, k);
      FindsAt(w, blocks, rows, ps, ch.marked, k, sequence);
      assert BreaksAt(w, ps, ch.marked, k, Hash(sequence).value);
    }
  }

  lemma {:induction false} NoneAsIssued(marked: set<Json>, findings: seq<Json>)
    requires forall k :: 0 <= k < |findings| ==> findings[k].Obj?
    ensures CountAsIssued(marked, findings) == Ok(0)
       <==> forall k :: 0 <= k < |findings| ==> AsIssued(marked, findings[k]) == Ok(false)
  {
    if findings != [] {
      NoneAsIssued(marked, findings[1..]);
      assert forall k :: 0 < k < |findings| ==> findings[k] == findings[1..][k - 1];
    }
  }

  lemma {:induction false} NoneUnexplained(breaks: set<Json>, findings: seq<Json>)
    ensures CountUnexplained(breaks, findings) == Ok(0)
       <==> forall k :: 0 <= k < |findings| ==> Explained(breaks, findings[k]) == Ok(true)
  {
    if findings != [] {
      NoneUnexplained(breaks, findings[1..]);
      assert forall k :: 0 < k < |findings| ==> findings[k] == findings[1..][k - 1];
    }
  }

  /** The breaks hold `sequence` exactly when some row is found under it. */
  ghost predicate FoundExactly(w: World, blocks: seq<Json>, rows: seq<Json>, breaks: set<Json>, sequence: Json) {
    Keyed(sequence) ==> (Hash(sequence).value in breaks <==> exists k: nat :: FindsRow(w, blocks, rows, k, sequence))
  }

  lemma ClearsExactly(w: World, blocks: seq<Json>, rows: seq<Json>, marked: set<Json>, breaks: set<Json>,
      finding: Json)
    requires forall block :: MarkHolds(blocks, marked, block)
    requires forall sequence :: FoundExactly(w, blocks, rows, breaks, sequence)
    ensures Clears(w, blocks, rows, finding)
       <==> finding.Obj? && AsIssued(marked, finding) == Ok(false) && Explained(breaks, finding) == Ok(true)
  {
    if Has(finding, CarrySeq) && finding.fields[CarrySeq] != Null {
      assert MarkHolds(blocks, marked, BlockOf(finding));
      assert FoundExactly(w, blocks, rows, breaks, finding.fields[CarrySeq]);
    }
  }

  lemma AllFound(w: World, blocks: seq<Json>, rows: seq<Json>, ps: seq<Posted>, ch: Chains)
    requires Posts(w, rows, ps) && ChainsMean(w, blocks, rows, ch) && forall key :: BreakHolds(w, ps, ch, key)
    ensures forall sequence :: FoundExactly(w, blocks, rows, ch.labelBreaks, sequence)
  {
    forall sequence
      ensures FoundExactly(w, blocks, rows, ch.labelBreaks, sequence)
    {
      if Keyed(sequence) {
        assert BreakHolds(w, ps, ch, Hash(sequence).value);
        FindsExactly(w, blocks, rows, ps, ch, sequence);
      }
    }
  }

  /** The findings are all as the summary counts them exactly when each is cleared. */
  lemma AllCleared(w: World, blocks: seq<Json>, rows: seq<Json>, marked: set<Json>, breaks: set<Json>,
      findings: seq<Json>)
    requires forall block :: MarkHolds(blocks, marked, block)
    requires forall sequence :: FoundExactly(w, blocks, rows, breaks, sequence)
    ensures (forall finding :: finding in findings ==> Clears(w, blocks, rows, finding))
       <==> && (forall k :: 0 <= k < |findings| ==> findings[k].Obj?)
            && CountAsIssued(marked, findings) == Ok(0) && CountUnexplained(breaks, findings) == Ok(0)
  {
    forall finding | finding in findings
      ensures Clears(w, blocks, rows, finding)
         <==> finding.Obj? && AsIssued(marked, finding) == Ok(false) && Explained(breaks, finding) == Ok(true)
    {
      ClearsExactly(w, blocks, rows, marked, breaks, finding);
    }
    NoneUnexplained(breaks, findings);
    if forall k :: 0 <= k < |findings| ==> findings[k].Obj? {
      NoneAsIssued(marked, findings);
    }
  }

  lemma FindingsParts(st: State, rows: seq<Json>)
    requires At(st.counts, ActiveCarry, 0) == |rows|
    ensures Findings(st).Ok?
       <==> && st.complete && st.integrity.Obj? && Counted(st.integrity, rows)
            && forall k :: 0 <= k < |Listed(st.integrity).items| ==> Listed(st.integrity).items[k].Obj?
    ensures Findings(st).Ok? ==> Findings(st).value == Listed(st.integrity).items
  {
  }

  lemma FindingsExactly(w: World, lines: seq<string>, st: State)
    requires Tallied(w, lines, st)
    ensures Findings(st).Ok?
       <==> && Rows(w, lines, Complete) != [] && Reports(w, lines) != []
            && Counted(Reports(w, lines)[0], Rows(w, lines, Accounting(ActiveCarry)))
            && forall k :: 0 <= k < |Listed(Reports(w, lines)[0]).items| ==> Listed(Reports(w, lines)[0]).items[k].Obj?
    ensures Findings(st).Ok? ==> Findings(st).value == Listed(Reports(w, lines)[0]).items
  {
    ReportRead(w, lines, st);
    assert Fed(w, lines, st, ActiveCarry);
    FindingsParts(st, Rows(w, lines, Accounting(ActiveCarry)));
  }

  lemma ReportParts(w: World, st: State)
    ensures ReportOf(w, st).Ok?
       <==> && Findings(st).Ok? && CountAsIssued(st.chains.marked, Findings(st).value) == Ok(0)
            && st.chains.legacyBreaks == 0 && CountUnexplained(st.chains.labelBreaks, Findings(st).value) == Ok(0)
            && (st.deferred == None || At(st.counts, ShareHashes, 0) == 0)
    ensures ReportOf(w, st).Ok? ==> ReportOf(w, st).value == Summarized(w, st, Findings(st).value)
  {
  }

  lemma ChainsClear(w: World, blocks: seq<Json>, rows: seq<Json>, ps: seq<Posted>, ch: Chains, findings: seq<Json>)
    requires Posts(w, rows, ps) && Balanced(w, ps, ch) && ChainsMean(w, blocks, rows, ch)
    ensures ch.legacyBreaks == 0 <==> forall k: nat :: k < |rows| ==> OnProgram(w, blocks, rows, k)
    ensures (forall finding :: finding in findings ==> Clears(w, blocks, rows, finding))
       <==> && (forall k :: 0 <= k < |findings| ==> findings[k].Obj?)
            && CountAsIssued(ch.marked, findings) == Ok(0) && CountUnexplained(ch.labelBreaks, findings) == Ok(0)
  {
    BreaksExactly(w, blocks, rows, ps, ch);
    AllFound(w, blocks, rows, ps, ch);
    AllCleared(w, blocks, rows, ch.marked, ch.labelBreaks, findings);
  }

  lemma ReportedExactly(w: World, lines: seq<string>, st: State)
    requires Tallied(w, lines, st) && Balanced(w, AllPosted(w, lines), st.chains)
    ensures ReportOf(w, st).Ok? <==> Reportable(w, lines)
    ensures ReportOf(w, st).Ok? ==> Findings(st).Ok? && ReportOf(w, st).value == Summarized(w, st, Findings(st).value)
  {
    var blocks, rows := Rows(w, lines, Accounting(Blocks)), Rows(w, lines, Accounting(ActiveCarry));
    FindingsExactly(w, lines, st);
    ReportParts(w, st);
    assert Fed(w, lines, st, ShareHashes);
    if Reports(w, lines) != [] && Counted(Reports(w, lines)[0], rows) {
      ChainsClear(w, blocks, rows, AllPosted(w, lines), st.chains, Listed(Reports(w, lines)[0]).items);
    }
  }

  // ----- what a report says

  predicate CountsKind(w: World, lines: seq<string>, r: Report, k: Hashed) {
    var rows := Rows(w, lines, Accounting(k));
    && (k in r.counts <==> rows != []) && (k in r.digests <==> rows != [])
    && (rows != [] ==> r.counts[k] == |rows| && r.digests[k] == w.sha(Blob(w, rows)))
  }

  ghost predicate SaysShares(w: World, shares: seq<Json>, r: Report) {
    && Shown(r.lastShareSeq) == Shown(LastSequence(shares))
    && exists flags :: FlagsOf(w, shares, flags) && r.acceptedShares == Sum(flags)
  }

  predicate SaysCandidates(candidates: seq<Json>, r: Report) {
    && r.pendingCandidates == InState(candidates, "pending")
    && r.unfinishedCandidates
       == |candidates| - InState(candidates, "submitted") - InState(candidates, "abandoned")
          - InState(candidates, "orphaned")
  }

  /** The database's report as the summary keeps it, with no mismatch left. */
  predicate SaysIntegrity(report: Json, r: Report) {
    && report.Obj? && Shown(r.integrity) == Shown(Obj(report.fields[MismatchCount := Int(0)][Mismatches := Arr([])]))
  }

  predicate SaysDeferral(deferrals: seq<Json>, r: Report) {
    if deferrals == [] then r.deferredHashes == None
    else r.deferredHashes.Some? && Shown(r.deferredHashes.value) == Shown(deferrals[0])
  }

  predicate SaysNotes(cleared: nat, deferrals: seq<Json>, notes: seq<Note>) {
    var first := if cleared == 0 then 0 else 1;
    && |notes| == first + (if deferrals == [] then 0 else 1)
    && (cleared > 0 ==> notes[0] == ClearedFindings(cleared))
    && (deferrals != [] ==> notes[first].DeferredHashes? && Shown(notes[first].cursor) == Shown(deferrals[0]))
  }

  /** Every figure of the report, from the rows of the lines. */
  ghost predicate Says(w: World, lines: seq<string>, r: Report) {
    && (forall k :: CountsKind(w, lines, r, k))
    && SaysShares(w, Rows(w, lines, Accounting(Shares)), r)
    && SaysCandidates(Rows(w, lines, Accounting(Candidates)), r)
    && r.auditHead == HeadOf(w, Rows(w, lines, Accounting(ActiveCarry)))
    && Reports(w, lines) != [] && SaysIntegrity(Reports(w, lines)[0], r)
    && SaysDeferral(Rows(w, lines, Deferral), r)
    && Listed(Reports(w, lines)[0]).Arr?
    && SaysNotes(|Listed(Reports(w, lines)[0]).items|, Rows(w, lines, Deferral), r.notes)
  }

  lemma SummarizedSays(w: World, lines: seq<string>, st: State)
    requires Tallied(w, lines, st) && Findings(st).Ok?
    ensures Says(w, lines, Summarized(w, st, Findings(st).value))
  {
    FindingsExactly(w, lines, st);
    ReportRead(w, lines, st);
    var r := Summarized(w, st, Findings(st).value);
    forall k
      ensures CountsKind(w, lines, r, k)
    {
      assert Fed(w, lines, st, k);
    }
  }

  /** Which lines are reported on, and what the report says of them. */
  lemma ReportSays(w: World, lines: seq<string>)
    ensures Reported(w, lines) <==> Admitted(w, lines) && Reportable(w, lines)
    ensures Reported(w, lines) ==> Says(w, lines, ReportOf(w, Lines(w, INITIAL, lines).value).value)
  {
    AcceptedExactly(w, lines);
    if Lines(w, INITIAL, lines).Ok? {
      AlwaysBalanced(w, lines);
      var st := Lines(w, INITIAL, lines).value;
      ReportedExactly(w, lines, st);
      if ReportOf(w, st).Ok? {
        SummarizedSays(w, lines, st);
      }
    }
  }

  // ----- what the first line that is refused is refused for

  function OrderReason(w: World, rows: seq<Json>, row: Json): Option<Refusal> {
    if rows == [] then None
    else
      var last := rows[|rows| - 1];
      if Has(row, BlockHeight) && Has(row, CarrySeq) && Has(last, BlockHeight) && Has(last, CarrySeq)
        && PairLe(w, (row.fields[BlockHeight], row.fields[CarrySeq]),
                  (last.fields[BlockHeight], last.fields[CarrySeq])) == Ok(true) then Some(CarryOrder)
      else None
  }

  function RowReason(w: World, before: seq<string>, kind: Hashed, row: Json): Option<Refusal> {
    match kind
    case Blocks => if Rows(w, before, Accounting(ActiveCarry)) != [] then Some(BlocksAfterCarry) else None
    case ActiveCarry => OrderReason(w, Rows(w, before, Accounting(ActiveCarry)), row)
    case Shares =>
      if Has(row, ShareSeq)
        && Le(w, row.fields[ShareSeq], LastSequence(Rows(w, before, Accounting(Shares)))) == Ok(true)
      then Some(ShareOrder)
      else None
    case _ => None
  }

  /** What a line is out of place for, after the lines before it. */
  function Reason(w: World, before: seq<string>, line: string): Option<Refusal> {
    if Rows(w, before, Complete) != [] then Some(RecordsAfterMarker)
    else
      match RecordIn(w, line)
      case None => None
      case Some((kind, row)) =>
        match kind
        case Complete => if row == Bool(true) && Reports(w, before) != [] then None else Some(BadMarker)
        case Integrity => if Reports(w, before) == [] then None else Some(DuplicateIntegrity)
        case Deferral =>
          if Rows(w, before, Deferral) != [] then Some(DuplicateDeferral)
          else if row.Obj? then None
          else Some(DeferralNotObject)
        case Accounting(k) =>
          if Reports(w, before) != [] then Some(AccountingAfterIntegrity)
          else if w.canonical(row).Err? then None
          else RowReason(w, before, k, row)
        case _ => None
  }

  lemma CheckedReason(w: World, lines: seq<string>, st: State, k: Hashed, row: Json, canonical: Bytes)
    requires Means(w, lines, st) && RowReason(w, lines, k, row).Some?
    ensures Checked(w, st, k, row, canonical) == Err(ValueError(RowReason(w, lines, k, row).value))
  {
    var rows := Rows(w, lines, Accounting(ActiveCarry));
    if k.ActiveCarry? {
      assert rows[|rows| - 1] in rows;
    }
  }

  lemma LineReason(w: World, lines: seq<string>, st: State, line: string)
    requires Means(w, lines, st) && Reason(w, lines, line).Some?
    ensures Line(w, st, line) == Err(ValueError(Reason(w, lines, line).value))
  {
    RecordMeans(w, line);
    ReportRead(w, lines, st);
    if RecordIn(w, line).Some? && RecordIn(w, line).value.0.Accounting? {
      var k, row := RecordIn(w, line).value.0.of, RecordIn(w, line).value.1;
      if w.canonical(row).Ok? && RowReason(w, lines, k, row).Some? {
        var canonical := w.canonical(row).value;
        CheckedReason(w, lines, Feed(st, k, 1, canonical + [NEWLINE]), k, row, canonical);
      }
    }
  }

  /** The first line that is out of place is refused for that, whatever follows it. */
  lemma RefusedFor(w: World, before: seq<string>, line: string, after: seq<string>)
    requires Admitted(w, before) && Reason(w, before, line).Some?
    ensures Lines(w, INITIAL, before + [line] + after) == Err(ValueError(Reason(w, before, line).value))
  {
    AcceptedExactly(w, before);
    var st := Lines(w, INITIAL, before).value;
    LineReason(w, before, st, line);
    LinesAppend(w, INITIAL, before, [line]);
    LinesAppend(w, INITIAL, before + [line], after);
    OneLine(w, st, line);
  }
}
