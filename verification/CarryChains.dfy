/** The accounting of active carry rows: what the summary's running balances are, and what a
    report that is returned says of every row and of every finding it cleared (#708). */
module CarryChains {
  import opened Common
  import opened Results
  import opened TextLines
  import opened EvidenceJson
  import opened EvidenceSummary

  /** An active carry row, with the keys and amounts the chains use. */
  datatype Posted = Posted(carry: Carry, row: Json)

  /** The active carry row a line holds, if it holds one that can be read. */
  function PostedBy(w: World, line: string): seq<Posted> {
    match Parse(w, line)
    case Err(_) => []
    case Ok(p) =>
      if w.kind(p.kind) != Accounting(ActiveCarry) || CarryOf(w, p.row).Err? then []
      else [Posted(CarryOf(w, p.row).value, p.row)]
  }

  function AllPosted(w: World, lines: seq<string>): seq<Posted> {
    if lines == [] then []
    else AllPosted(w, lines[..|lines| - 1]) + PostedBy(w, lines[|lines| - 1])
  }

  function Net(c: Carry): int {
    c.gross - c.onchain
  }

  /** The sum of gross less on-chain over the rows of one program. */
  function ProgramTotal(ps: seq<Posted>, program: Json): int {
    if ps == [] then 0
    else
      var last := ps[|ps| - 1].carry;
      ProgramTotal(ps[..|ps| - 1], program) + if last.program == program then Net(last) else 0
  }

  function LabelTotal(ps: seq<Posted>, paid: Label): int {
    if ps == [] then 0
    else
      var last := ps[|ps| - 1].carry;
      LabelTotal(ps[..|ps| - 1], paid) + if last.paid == paid then Net(last) else 0
  }

  /** Whether row `k` departs from its program's chain, over the rows before it. */
  function OffProgram(w: World, ps: seq<Posted>, k: nat): Result<bool, Error>
    requires k < |ps|
  {
    var c := ps[k].carry;
    OffChain(w, ps[k].row, ProgramTotal(ps[..k], c.program), c.gross, c.onchain)
  }

  function OffLabel(w: World, ps: seq<Posted>, k: nat): Result<bool, Error>
    requires k < |ps|
  {
    var c := ps[k].carry;
    OffChain(w, ps[k].row, LabelTotal(ps[..k], c.paid), c.gross, c.onchain)
  }

  predicate Unmarked(marked: set<Json>, p: Posted) {
    p.carry.block !in marked
  }

  /** The unmarked rows among the first `n` that break their program's chain. */
  function ProgramBreaks(w: World, ps: seq<Posted>, marked: set<Json>, n: nat): nat
    requires n <= |ps|
  {
    if n == 0 then 0
    else ProgramBreaks(w, ps, marked, n - 1)
         + if Unmarked(marked, ps[n - 1]) && OffProgram(w, ps, n - 1) == Ok(true) then 1 else 0
  }

  function SequenceKey(p: Posted): Result<Json, Error> {
    var sequence :- Item(p.row, CarrySeq);
    Hash(sequence)
  }

  /** `key` is the sequence of an unmarked row that breaks its label's chain. */
  ghost predicate IsLabelBreak(w: World, ps: seq<Posted>, marked: set<Json>, key: Json) {
    exists k: nat :: BreaksAt(w, ps, marked, k, key)
  }

  predicate BreaksAt(w: World, ps: seq<Posted>, marked: set<Json>, k: nat, key: Json) {
    k < |ps| && Unmarked(marked, ps[k]) && OffLabel(w, ps, k) == Ok(true) && SequenceKey(ps[k]) == Ok(key)
  }

  // ----- the invariant

  predicate ProgramHolds(ps: seq<Posted>, ch: Chains, program: Json) {
    At(ch.byProgram, program, 0) == ProgramTotal(ps, program)
  }

  predicate LabelHolds(ps: seq<Posted>, ch: Chains, paid: Label) {
    At(ch.byLabel, paid, 0) == LabelTotal(ps, paid)
  }

  /** Every running balance is the sum it stands for. */
  ghost predicate Totals(ps: seq<Posted>, ch: Chains) {
    (forall p :: ProgramHolds(ps, ch, p)) && (forall l :: LabelHolds(ps, ch, l))
  }

  ghost predicate BreakHolds(w: World, ps: seq<Posted>, ch: Chains, key: Json) {
    key in ch.labelBreaks <==> IsLabelBreak(w, ps, ch.marked, key)
  }

  predicate Readable(w: World, ps: seq<Posted>, ch: Chains, k: nat) {
    k < |ps| && Unmarked(ch.marked, ps[k]) ==> OffProgram(w, ps, k).Ok?
  }

  /** The breaks are exactly the breaking rows. */
  ghost predicate Breaks(w: World, ps: seq<Posted>, ch: Chains) {
    && ch.legacyBreaks == ProgramBreaks(w, ps, ch.marked, |ps|)
    && (forall key :: BreakHolds(w, ps, ch, key))
    && (forall k: nat :: Readable(w, ps, ch, k))
  }

  ghost predicate Balanced(w: World, ps: seq<Posted>, ch: Chains) {
    (ps != [] ==> ch.started) && Totals(ps, ch) && Breaks(w, ps, ch)
  }

  lemma LastTaken(ps: seq<Posted>, p: Posted, k: nat)
    requires k <= |ps|
    ensures (ps + [p])[..k] == ps[..k]
    ensures k < |ps| ==> (ps + [p])[k] == ps[k]
  {
  }

  lemma {:induction false} SameBreaks(w: World, ps: seq<Posted>, p: Posted, marked: set<Json>, n: nat)
    requires n <= |ps|
    ensures ProgramBreaks(w, ps + [p], marked, n) == ProgramBreaks(w, ps, marked, n)
  {
    if n != 0 {
      SameBreaks(w, ps, p, marked, n - 1);
      LastTaken(ps, p, n - 1);
    }
  }

  lemma SameOffs(w: World, ps: seq<Posted>, p: Posted)
    ensures forall k :: 0 <= k < |ps| ==> OffProgram(w, ps + [p], k) == OffProgram(w, ps, k)
    ensures forall k :: 0 <= k < |ps| ==> OffLabel(w, ps + [p], k) == OffLabel(w, ps, k)
    ensures forall k :: 0 <= k < |ps| ==> (ps + [p])[k] == ps[k]
  {
    forall k | 0 <= k < |ps|
      ensures OffProgram(w, ps + [p], k) == OffProgram(w, ps, k) && OffLabel(w, ps + [p], k) == OffLabel(w, ps, k)
    {
      LastTaken(ps, p, k);
    }
  }

  /** One more row: the totals move by its net amount, and its breaks are counted. */
  lemma CarryStep(w: World, ps: seq<Posted>, ch: Chains, row: Json, canonical: Bytes, c: Carry, ordered: Chains,
      after: Chains)
    requires Balanced(w, ps, ch) && CarryOf(w, row) == Ok(c)
    requires CarryStart(w, ch, row, canonical) == Ok(ordered) && CarryRow(w, ch, row, canonical) == Ok(after)
    ensures Balanced(w, ps + [Posted(c, row)], after)
  {
    CarryRowMoves(w, ch, row, canonical);
    CarryRowParts(w, ch, row, canonical);
    TotalsMove(ps, ch, after, Posted(c, row));
    BreaksMove(w, ps, ch, ordered, after, Posted(c, row));
  }

  lemma BreaksMove(w: World, ps: seq<Posted>, ch: Chains, ordered: Chains, after: Chains, p: Posted)
    requires Totals(ps, ch) && Breaks(w, ps, ch)
    requires ordered.byProgram == ch.byProgram && ordered.byLabel == ch.byLabel && ordered.marked == ch.marked
    requires ordered.legacyBreaks == ch.legacyBreaks && ordered.labelBreaks == ch.labelBreaks
    requires CarryBreaks(w, ordered, p.row, p.carry).Ok?
    requires var broken := CarryBreaks(w, ordered, p.row, p.carry).value;
             after.marked == broken.marked && after.legacyBreaks == broken.legacyBreaks
               && after.labelBreaks == broken.labelBreaks
    ensures Breaks(w, ps + [p], after)
  {
    assert ProgramHolds(ps, ch, p.carry.program) && LabelHolds(ps, ch, p.carry.paid);
    BreaksCounted(w, ps, ordered, p.row, p.carry);
    SameOffs(w, ps, p);
    SameBreaks(w, ps, p, ch.marked, |ps|);
    LabelBreaksGrow(w, ps, p, ch, after);
    forall k: nat
      ensures Readable(w, ps + [p], after, k)
    {
      assert Readable(w, ps, ch, k);
    }
  }

  lemma CarryRowParts(w: World, ch: Chains, row: Json, canonical: Bytes)
    requires CarryRow(w, ch, row, canonical).Ok?
    ensures CarryStart(w, ch, row, canonical).Ok? && CarryOf(w, row).Ok?
    ensures var ordered := CarryStart(w, ch, row, canonical).value;
            && ordered.byProgram == ch.byProgram && ordered.byLabel == ch.byLabel && ordered.marked == ch.marked
            && ordered.legacyBreaks == ch.legacyBreaks && ordered.labelBreaks == ch.labelBreaks
            && CarryBreaks(w, ordered, row, CarryOf(w, row).value).Ok?
            && var broken, after := CarryBreaks(w, ordered, row, CarryOf(w, row).value).value,
               CarryRow(w, ch, row, canonical).value;
               after.started && after.marked == broken.marked && after.legacyBreaks == broken.legacyBreaks
                 && after.labelBreaks == broken.labelBreaks
  {
    BreaksKeepBalances(w, CarryStart(w, ch, row, canonical).value, row, CarryOf(w, row).value);
  }

  /** What a carry row does to the balances. */
  lemma CarryRowMoves(w: World, ch: Chains, row: Json, canonical: Bytes)
    requires CarryRow(w, ch, row, canonical).Ok?
    ensures CarryOf(w, row).Ok? && CarryOf(w, row).value.paid.2 == CarryOf(w, row).value.program
    ensures CarryRow(w, ch, row, canonical).value.byProgram == CarryAdded(ch, CarryOf(w, row).value).byProgram
    ensures CarryRow(w, ch, row, canonical).value.byLabel == CarryAdded(ch, CarryOf(w, row).value).byLabel
    ensures CarryRow(w, ch, row, canonical).value.marked == ch.marked
  {
    var ordered := CarryStart(w, ch, row, canonical).value;
    var c := CarryOf(w, row).value;
    BreaksKeepBalances(w, ordered, row, c);
  }

  lemma BreaksKeepBalances(w: World, ch: Chains, row: Json, c: Carry)
    requires CarryBreaks(w, ch, row, c).Ok?
    ensures var after := CarryBreaks(w, ch, row, c).value;
            after.byProgram == ch.byProgram && after.byLabel == ch.byLabel && after.marked == ch.marked
              && after.started == ch.started
  {
  }

  lemma TotalsMove(ps: seq<Posted>, ch: Chains, after: Chains, p: Posted)
    requires Totals(ps, ch)
    requires after.byProgram == CarryAdded(ch, p.carry).byProgram && after.byLabel == CarryAdded(ch, p.carry).byLabel
    ensures Totals(ps + [p], after)
  {
    assert (ps + [p])[..|ps|] == ps;
    forall q
      ensures ProgramHolds(ps + [p], after, q)
    {
      assert ProgramHolds(ps, ch, q);
    }
    forall l
      ensures LabelHolds(ps + [p], after, l)
    {
      assert LabelHolds(ps, ch, l);
    }
  }

  lemma BreaksCounted(w: World, ps: seq<Posted>, ch: Chains, row: Json, c: Carry)
    requires At(ch.byProgram, c.program, 0) == ProgramTotal(ps, c.program)
    requires At(ch.byLabel, c.paid, 0) == LabelTotal(ps, c.paid)
    requires CarryBreaks(w, ch, row, c).Ok?
    ensures var after := CarryBreaks(w, ch, row, c).value;
            var off := OffProgram(w, ps + [Posted(c, row)], |ps|);
            var offLabel := OffLabel(w, ps + [Posted(c, row)], |ps|);
            && after.marked == ch.marked && after.byProgram == ch.byProgram && after.byLabel == ch.byLabel
            && after.legacyBreaks == ch.legacyBreaks + (if c.block !in ch.marked && off == Ok(true) then 1 else 0)
            && (c.block !in ch.marked ==> off.Ok? && offLabel.Ok?)
            && (if c.block !in ch.marked && offLabel == Ok(true)
                then SequenceKey(Posted(c, row)).Ok?
                  && after.labelBreaks == ch.labelBreaks + {SequenceKey(Posted(c, row)).value}
                else after.labelBreaks == ch.labelBreaks)
  {
    assert (ps + [Posted(c, row)])[..|ps|] == ps;
  }

  lemma OneMoreBreak(w: World, ps: seq<Posted>, p: Posted, marked: set<Json>, key: Json)
    requires forall k :: 0 <= k < |ps| ==> OffLabel(w, ps + [p], k) == OffLabel(w, ps, k) && (ps + [p])[k] == ps[k]
    ensures IsLabelBreak(w, ps + [p], marked, key)
            <==> IsLabelBreak(w, ps, marked, key) || BreaksAt(w, ps + [p], marked, |ps|, key)
  {
    forall k: nat | k < |ps|
      ensures BreaksAt(w, ps + [p], marked, k, key) <==> BreaksAt(w, ps, marked, k, key)
    {
    }
  }

  lemma LabelBreaksGrow(w: World, ps: seq<Posted>, p: Posted, before: Chains, after: Chains)
    requires after.marked == before.marked
    requires forall key :: BreakHolds(w, ps, before, key)
    requires forall k :: 0 <= k < |ps| ==> OffLabel(w, ps + [p], k) == OffLabel(w, ps, k) && (ps + [p])[k] == ps[k]
    requires if Unmarked(before.marked, p) && OffLabel(w, ps + [p], |ps|) == Ok(true)
             then SequenceKey(p).Ok? && after.labelBreaks == before.labelBreaks + {SequenceKey(p).value}
             else after.labelBreaks == before.labelBreaks
    ensures forall key :: BreakHolds(w, ps + [p], after, key)
  {
    forall key
      ensures BreakHolds(w, ps + [p], after, key)
    {
      assert BreakHolds(w, ps, before, key);
      OneMoreBreak(w, ps, p, before.marked, key);
    }
  }

  lemma LineStep(w: World, ps: seq<Posted>, st: State, line: string)
    requires Balanced(w, ps, st.chains)
    ensures Line(w, st, line).Ok? ==> Balanced(w, ps + PostedBy(w, line), Line(w, st, line).value.chains)
  {
    if Line(w, st, line).Err? {
      return;
    }
    var p := Parse(w, line).value;
    if w.kind(p.kind) == Accounting(ActiveCarry) {
      var canonical := w.canonical(p.row).value;
      var ch := Feed(st, ActiveCarry, 1, canonical + [NEWLINE]).chains;
      CarryStep(w, ps, ch, p.row, canonical, CarryOf(w, p.row).value, CarryStart(w, ch, p.row, canonical).value,
                Line(w, st, line).value.chains);
    } else {
      assert ps + PostedBy(w, line) == ps;
      if w.kind(p.kind) == Accounting(Blocks) {
        assert ps == [];
        BlocksFirst(w, st.chains, p.row);
      }
    }
  }

  /** Blocks are marked only before any carry row is posted. */
  lemma BlocksFirst(w: World, ch: Chains, row: Json)
    requires Balanced(w, [], ch) && BlockRow(w, ch, row).Ok?
    ensures Balanced(w, [], BlockRow(w, ch, row).value)
  {
    var after := BlockRow(w, ch, row).value;
    forall key
      ensures BreakHolds(w, [], after, key)
    {
      assert BreakHolds(w, [], ch, key);
      assert !IsLabelBreak(w, [], ch.marked, key);
    }
    forall p
      ensures ProgramHolds([], after, p)
    {
      assert ProgramHolds([], ch, p);
    }
    forall l
      ensures LabelHolds([], after, l)
    {
      assert LabelHolds([], ch, l);
    }
  }

  /** After any prefix of an export, every running balance is the sum it stands for, and the
      breaks are exactly the breaking rows. */
  lemma {:induction false} AlwaysBalanced(w: World, lines: seq<string>)
    ensures Lines(w, INITIAL, lines).Ok? ==> Balanced(w, AllPosted(w, lines), Lines(w, INITIAL, lines).value.chains)
  {
    if lines != [] && Lines(w, INITIAL, lines).Ok? {
      var n := |lines| - 1;
      LastLine(w, INITIAL, lines);
      AlwaysBalanced(w, lines[..n]);
      var mid := Lines(w, INITIAL, lines[..n]).value;
      LineStep(w, AllPosted(w, lines[..n]), mid, lines[n]);
    }
  }

  // ----- conservation between the two chains

  ghost function SumOver(keys: set<Label>, m: map<Label, int>): int
    requires keys <= m.Keys
  {
    if keys == {} then 0
    else
      var k :| k in keys;
      m[k] + SumOver(keys - {k}, m)
  }

  lemma {:induction false} SumTakes(keys: set<Label>, m: map<Label, int>, k: Label)
    requires keys <= m.Keys && k in keys
    ensures SumOver(keys, m) == m[k] + SumOver(keys - {k}, m)
  {
    var j :| j in keys && SumOver(keys, m) == m[j] + SumOver(keys - {j}, m);
    if j != k {
      SumTakes(keys - {j}, m, k);
      SumTakes(keys - {k}, m, j);
      assert keys - {j} - {k} == keys - {k} - {j};
    }
  }

  lemma {:induction false} SumAgrees(keys: set<Label>, m: map<Label, int>, m': map<Label, int>)
    requires keys <= m.Keys && keys <= m'.Keys && forall k :: k in keys ==> m[k] == m'[k]
    ensures SumOver(keys, m) == SumOver(keys, m')
  {
    if keys != {} {
      var k :| k in keys;
      SumTakes(keys, m, k);
      SumTakes(keys, m', k);
      SumAgrees(keys - {k}, m, m');
    }
  }

  /** The labels of one program that have been paid. */
  function LabelsOf(m: map<Label, int>, program: Json): set<Label> {
    set l | l in m && l.2 == program
  }

  ghost predicate Conserved(ch: Chains) {
    && (forall l :: l in ch.byLabel ==> l.2 in ch.byProgram)
    && forall p :: p in ch.byProgram ==> ch.byProgram[p] == SumOver(LabelsOf(ch.byLabel, p), ch.byLabel)
  }

  lemma LabelPaid(m: map<Label, int>, l: Label, amount: int, p: Json)
    ensures var m' := m[l := At(m, l, 0) + amount];
            SumOver(LabelsOf(m', p), m') == SumOver(LabelsOf(m, p), m) + if l.2 == p then amount else 0
  {
    var m' := m[l := At(m, l, 0) + amount];
    var rest := LabelsOf(m, p) - {l};
    if l.2 == p {
      assert LabelsOf(m', p) - {l} == rest;
      SumTakes(LabelsOf(m', p), m', l);
      SumAgrees(rest, m, m');
      if l in m {
        SumTakes(LabelsOf(m, p), m, l);
      } else {
        assert rest == LabelsOf(m, p);
      }
    } else {
      assert LabelsOf(m', p) == LabelsOf(m, p);
      SumAgrees(LabelsOf(m, p), m, m');
    }
  }

  lemma {:induction false} CarryConserves(ch: Chains, c: Carry)
    requires Conserved(ch) && c.paid.2 == c.program
    ensures Conserved(CarryAdded(ch, c))
  {
    var after := CarryAdded(ch, c);
    var amount := c.gross - c.onchain;
    assert after.byLabel == ch.byLabel[c.paid := At(ch.byLabel, c.paid, 0) + amount];
    forall p | p in after.byProgram
      ensures after.byProgram[p] == SumOver(LabelsOf(after.byLabel, p), after.byLabel)
    {
      LabelPaid(ch.byLabel, c.paid, amount, p);
      if p !in ch.byProgram {
        assert LabelsOf(ch.byLabel, p) == {};
      }
    }
  }

  /** A line that is not a carry row leaves the balances as they are. */
  lemma OtherLine(w: World, st: State, line: string)
    requires Line(w, st, line).Ok? && w.kind(Parse(w, line).value.kind) != Accounting(ActiveCarry)
    ensures var now := Line(w, st, line).value.chains;
            now.byProgram == st.chains.byProgram && now.byLabel == st.chains.byLabel
  {
  }

  lemma LineConserves(w: World, st: State, line: string)
    requires Conserved(st.chains)
    ensures Line(w, st, line).Ok? ==> Conserved(Line(w, st, line).value.chains)
  {
    if Line(w, st, line).Err? {
      return;
    }
    var p := Parse(w, line).value;
    if w.kind(p.kind) == Accounting(ActiveCarry) {
      var canonical := w.canonical(p.row).value;
      CarryRowMoves(w, st.chains, p.row, canonical);
      CarryConserves(st.chains, CarryOf(w, p.row).value);
    } else {
      OtherLine(w, st, line);
    }
  }

  /** After any prefix of an export, a program's balance is the sum of its labels' balances. */
  lemma {:induction false} AlwaysConserved(w: World, lines: seq<string>)
    ensures Lines(w, INITIAL, lines).Ok? ==> Conserved(Lines(w, INITIAL, lines).value.chains)
  {
    if lines != [] && Lines(w, INITIAL, lines).Ok? {
      var n := |lines| - 1;
      LastLine(w, INITIAL, lines);
      AlwaysConserved(w, lines[..n]);
      LineConserves(w, Lines(w, INITIAL, lines[..n]).value, lines[n]);
    }
  }

  // ----- what a report says

  lemma {:induction false} NoProgramBreak(w: World, ps: seq<Posted>, marked: set<Json>, n: nat, k: nat)
    requires k < n <= |ps| && ProgramBreaks(w, ps, marked, n) == 0 && Unmarked(marked, ps[k])
    ensures OffProgram(w, ps, k) != Ok(true)
  {
    if k < n - 1 {
      NoProgramBreak(w, ps, marked, n - 1, k);
    }
  }

  lemma {:induction false} AllExplained(breaks: set<Json>, findings: seq<Json>, k: nat)
    requires k < |findings| && CountUnexplained(breaks, findings) == Ok(0)
    ensures Explained(breaks, findings[k]) == Ok(true)
  {
    if k > 0 {
      AllExplained(breaks, findings[1..], k - 1);
    }
  }

  lemma ReportMeans(w: World, st: State)
    requires ReportOf(w, st).Ok?
    ensures st.chains.legacyBreaks == 0
    ensures Findings(st).Ok? && CountUnexplained(st.chains.labelBreaks, Findings(st).value) == Ok(0)
  {
  }

  /** Row `k`'s stored balances: what its program was owed before it, that with the row's gross,
      and that less what the row paid on chain. */
  predicate OnChain(w: World, ps: seq<Posted>, k: nat)
    requires k < |ps|
  {
    var c := ps[k].carry;
    var prior := ProgramTotal(ps[..k], c.program);
    && Amount(w, ps[k].row, PriorBalance) == Ok(prior)
    && Amount(w, ps[k].row, CandidateBalance) == Ok(prior + c.gross)
    && Amount(w, ps[k].row, CarryBalance) == Ok(prior + c.gross - c.onchain)
  }

  lemma RowOnChain(w: World, ps: seq<Posted>, ch: Chains, k: nat)
    requires Balanced(w, ps, ch) && ch.legacyBreaks == 0 && k < |ps| && Unmarked(ch.marked, ps[k])
    ensures OnChain(w, ps, k)
  {
    NoProgramBreak(w, ps, ch.marked, |ps|, k);
    assert Readable(w, ps, ch, k);
  }

  /** The lines are accepted, and so is the report on them. */
  predicate Reported(w: World, lines: seq<string>) {
    Lines(w, INITIAL, lines).Ok? && ReportOf(w, Lines(w, INITIAL, lines).value).Ok?
  }

  /** A returned report means every row on an unmarked block is exactly on its program's chain. */
  lemma ReportMeansProgramChains(w: World, lines: seq<string>, k: nat)
    requires k < |AllPosted(w, lines)|
    ensures Reported(w, lines) && Unmarked(Lines(w, INITIAL, lines).value.chains.marked, AllPosted(w, lines)[k]) ==>
              OnChain(w, AllPosted(w, lines), k)
  {
    AlwaysBalanced(w, lines);
    if !Reported(w, lines) || !Unmarked(Lines(w, INITIAL, lines).value.chains.marked, AllPosted(w, lines)[k]) {
      return;
    }
    ReportMeans(w, Lines(w, INITIAL, lines).value);
    RowOnChain(w, AllPosted(w, lines), Lines(w, INITIAL, lines).value.chains, k);
  }

  /** And every database finding it cleared is on an unmarked row that breaks its label's chain,
      though not its program's. */
  lemma ReportClearsLabelBreaksOnly(w: World, lines: seq<string>, finding: Json)
    ensures Reported(w, lines) ==> Findings(Lines(w, INITIAL, lines).value).Ok?
    ensures Reported(w, lines) && finding in Findings(Lines(w, INITIAL, lines).value).value ==>
              exists k :: ExplainsFinding(w, AllPosted(w, lines), Lines(w, INITIAL, lines).value.chains.marked, k,
                                          finding)
  {
    if !Reported(w, lines) {
      return;
    }
    AlwaysBalanced(w, lines);
    var st := Lines(w, INITIAL, lines).value;
    ReportMeans(w, st);
    if finding in Findings(st).value {
      var k := FindingExplained(w, AllPosted(w, lines), st.chains, Findings(st).value, finding);
    }
  }

  /** Row `k` is the finding's, on an unmarked block, off its label's chain and on its program's. */
  predicate ExplainsFinding(w: World, ps: seq<Posted>, marked: set<Json>, k: int, finding: Json) {
    && 0 <= k < |ps| && Unmarked(marked, ps[k])
    && OffLabel(w, ps, k) == Ok(true) && OffProgram(w, ps, k) == Ok(false)
    && Item(finding, CarrySeq).Ok? && SequenceKey(ps[k]) == Hash(Item(finding, CarrySeq).value)
  }

  lemma FindingExplained(w: World, ps: seq<Posted>, ch: Chains, findings: seq<Json>, finding: Json) returns (k: nat)
    requires Balanced(w, ps, ch) && ch.legacyBreaks == 0
    requires CountUnexplained(ch.labelBreaks, findings) == Ok(0) && finding in findings
    ensures ExplainsFinding(w, ps, ch.marked, k, finding)
  {
    var j :| 0 <= j < |findings| && findings[j] == finding;
    AllExplained(ch.labelBreaks, findings, j);
    var key := Hash(Item(finding, CarrySeq).value).value;
    assert BreakHolds(w, ps, ch, key);
    k :| BreaksAt(w, ps, ch.marked, k, key);
    NoProgramBreak(w, ps, ch.marked, |ps|, k);
    assert Readable(w, ps, ch, k);
  }
}
