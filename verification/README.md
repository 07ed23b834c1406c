# Verified models of the Qbit mining tools

Dafny 4.11 models of the parts of this repository where a property spans many steps or many
functions, and proofs of those properties for every input, every run and every reachable state.
Code that works by changing things in place is modelled by classes, arrays and loops, each proved
against a specification function; what the programs promise is proved about those functions.

`dafny verify dfyconfig.toml` checks the whole project.

| files | program |
|---|---|
| TextLines, Utf8, EvidenceJson, EvidenceSummary, EvidenceMeaning, EvidenceRange, EvidenceCopies, EvidenceFile, EvidenceNaN, CarryChains | the recovery-evidence summarizer: which exports are reported on and what each figure of a report says of the export's rows; its parallel form gives the serial summary or the serial refusal unless a NaN is a key |
| ExportRanges | the parallel exporter: the parts are the serial export, and a failure leaves no completion marker |
| TextRows, TrendRows, TrendAttempt, TrendBranch | the append-only trend branch: which rows an append records, with any number of writers, pushes without force, lost acknowledgements |
| Lpt, RustShards, ShardMeaning | the test-shard scheduler: what it runs, and the bound on its balance |
| Merkle, StratumCodec, HexText, VersionRolling, AuxPowWork | AuxPoW work: from a block template to the header a miner hashes and the block rebuilt at submission |
| JobLifecycle, Vardiff | the Stratum server's jobs and clients, and its difficulty arithmetic |
| Replays, Regression, RegressionMeaning | the load regression rule, what it reports, and its replay |
| CfgPredicate, ModuleText, ModuleWalk, ModuleMeaning, Delimiters, DelimiterFaults, Census | two source checkers: a recursive-descent evaluator, a walk over possibly cyclic modules and what their texts declare, delimiter matching, alias closure |
| BlockHistory, BlockPolls, BlockMeaning, Telemetry, Router, RouterLines | the Qbit Solo backend: block events over polls, and a streaming line rewriter |
| Common, Results, Sorting | shared names, outcomes, and Python's stable sort |

## What the proofs found

- `json.loads` gives one object for every `NaN`, and a dict or a set finds a NaN by its object. The
  parallel summarizer sends whole rows between processes, which makes a new NaN at every place, so two
  rows of a payout program named NaN share a balance with one job and not with two.
  `EvidenceNaN.NaNProgramDiffers` is an export that is reported on serially and refused in parallel;
  `EvidenceFile.SummarizeFile` shows that the two forms agree for every file in which no such field
  (a carry row's program, recipient, order key, block and place in the chain, a block's hash, a
  finding's row and block) has a NaN.
- `scan_qbit_blocks` writes the waiting events back only when a scan reaches the tip. A scan that an
  RPC failure stops after it has attached an event keeps the history it wrote and leaves the event
  waiting, so the event is attached again. `BlockPolls.EventAttachedTwice` is a run of two polls that
  does so. `BlockPolls.EventsConserved` shows that a run repeats an event exactly when one of its polls
  finds an event waiting and the node fails past a block that pays and is in no entry of the history,
  and that nothing ever loses one.
- `validate_hex` accepts white space between bytes, as `bytes.fromhex` does, although it promises a
  number of bytes. A header field with white space in it is short, and the canonical header is then
  not 80 bytes: `StratumCodec.SpacesShorten` is such a header, of 76 bytes, `StratumCodec.CanonicalIsFull`
  gives the exact condition, and for 80-byte headers the three header builders agree.
- `handle_submit` checks an extranonce2 by its number of characters only. One of white space leaves the
  coinbase short of the length its script says, while the header is still 80 bytes:
  `AuxPowWork.SpacesShortenCoinbase` is one of 16 spaces, and `AuxPowWork.AssembledSize` shows that the
  coinbase keeps the template's size exactly when both extranonces are digits only.
- `rewrite_miner_messages` does not catch the `KeyError` of a `params` object. The connection ends, and
  whether the lines before the one that raised were sent depends on how the stream was cut:
  `Router.CutMatters` is one stream cut in two ways.
- A batch that holds a promotion row and a preset row that would now leave the same promotion records
  that identity twice: `TrendAttempt.PromotionTwice` is such a batch, and `TrendAttempt.DistinctExactly`
  shows there is no other kind. The rows the
  program collects hold no promotion, and its `cite` action appends one promotion row by itself;
  `TrendBranch.UniqueIsSettled` and `TrendBranch.OneRowIsSettled` cover both.

## Model

| member | source | states |
|---|---|---|
| EvidenceFile.SummarizeFile | qbitleap-solo-miner/upstream/qbit-mining-bootstrap/scripts/prism-recovery-evidence.py:520-594 | for every file without a NaN in a key, chunk size of at least 1, number of jobs, and every way the host, the pool or a worker may fail, the summary as printed (its hashes, counts, sums, notes) or the first refusal is the one a serial pass over the file gives; with one job it is that for every file; and on a host on which everything works it is, NaN or not, what the copied results of the workers lead to; and with one job, or without a NaN in a key, there is a report exactly when each line read may follow those before it and the rows can be reported on, and every figure of it is what EvidenceMeaning states over the rows' own fields |
| EvidenceMeaning.ReportSays | qbitleap-solo-miner/upstream/qbit-mining-bootstrap/scripts/prism-recovery-evidence.py:122-289 | over the fields of the rows and no function of the summarizer: lines are reported on exactly when each may follow those before it, a marker and an integrity report of the right form are there, every unmarked carry row is on its program's chain, every finding listed is of an unmarked carry row off its label's chain, and no share hashes stand beside a deferral; then each kind's count is the number of its rows and its hash that of their canonical bytes, a newline after each, in file order; accepted is the sum of the flags, the last sequence the last share's, pending the candidates whose state is that text, unfinished those whose state is none of the three final texts, the head the hash chain over the carry rows, and the notes tell of the cleared findings and the deferral |
| EvidenceMeaning.AcceptedExactly | qbitleap-solo-miner/upstream/qbit-mining-bootstrap/scripts/prism-recovery-evidence.py:122-197 | lines are accepted exactly when each may follow those before it (shares in rising order, carry rows in chain order with balances that can be compared, blocks before carry rows, nothing after the marker, nothing accounted after the report), and the state they leave is what their rows say |
| EvidenceMeaning.RefusedFor | qbitleap-solo-miner/upstream/qbit-mining-bootstrap/scripts/prism-recovery-evidence.py:128-197 | the first line out of place is refused for the reason its own fields give, whatever follows it |
| EvidenceFile.SummarizeRanges | qbitleap-solo-miner/upstream/qbit-mining-bootstrap/scripts/prism-recovery-evidence.py:549-594 | a pass that ends has checked every line of the file; one that stops has checked exactly the lines before a byte that ends a line; one that raises met a refusal of the lines before a byte from which everything a serial read may decode ahead is valid; on a host on which everything works it ends with what the copied results lead to |
| EvidenceFile.RefusalReached | qbitleap-solo-miner/upstream/qbit-mining-bootstrap/scripts/prism-recovery-evidence.py:585-591 | a refusal met by the workers is the one a serial read raises, when the bytes it may decode past it are valid |
| EvidenceFile.Resumes | qbitleap-solo-miner/upstream/qbit-mining-bootstrap/scripts/prism-recovery-evidence.py:537-546 | after the workers checked some lines, the serial continuation skips exactly those: the lines it drops give the state it continues from |
| EvidenceFile.FailsEarly | qbitleap-solo-miner/upstream/qbit-mining-bootstrap/scripts/prism-recovery-evidence.py:537-546 | if a serial read fails before it has yielded the lines already checked, the serial summary fails with that same failure |
| EvidenceFile.Continue | qbitleap-solo-miner/upstream/qbit-mining-bootstrap/scripts/prism-recovery-evidence.py:283-289 | checking on from a state that stands for the lines checked gives the serial outcome |
| EvidenceFile.RangesPartition | qbitleap-solo-miner/upstream/qbit-mining-bootstrap/scripts/prism-recovery-evidence.py:436-448 | for every chunk size the ranges, end to end, are the file from the start on |
| EvidenceFile.RangesClosed | qbitleap-solo-miner/upstream/qbit-mining-bootstrap/scripts/prism-recovery-evidence.py:436-448 | every range but the last ends with a newline byte, the first one past its first chunk bytes, and the last has none past those before its end |
| EvidenceFile.RangesLines | qbitleap-solo-miner/upstream/qbit-mining-bootstrap/scripts/prism-recovery-evidence.py:391-397 | the file decodes exactly when every range does, and the ranges' lines one after another are the file's lines |
| EvidenceFile.SomeReader | qbitleap-solo-miner/upstream/qbit-mining-bootstrap/scripts/prism-recovery-evidence.py:476-497 | whatever the lookahead, some reader meets the law this model asks of a text-mode read |
| EvidenceFile.DecodesExactly | qbitleap-solo-miner/upstream/qbit-mining-bootstrap/scripts/prism-recovery-evidence.py:476-497 | the guard on a worker's refusal holds exactly when the bytes in reach of a serial read are the encoding of a text or, short of the end of the file, the start of one |
| EvidenceRange.ParseRange | qbitleap-solo-miner/upstream/qbit-mining-bootstrap/scripts/prism-recovery-evidence.py:372-433 | the worker's loop gives the items of its range, as a function of its lines, and their number, or the serial marker |
| EvidenceRange.RangeStands | qbitleap-solo-miner/upstream/qbit-mining-bootstrap/scripts/prism-recovery-evidence.py:372-433 | the items of a range that could be read stand for its lines: replayed into any state they give what those lines give one at a time, refusals included, and only an error item ends them early |
| EvidenceRange.SerialExactly | qbitleap-solo-miner/upstream/qbit-mining-bootstrap/scripts/prism-recovery-evidence.py:382-433 | a worker leaves its range to a serial read exactly when the bytes do not decode or, before any line it refuses, it comes to an error that it cannot hand over or a row without canonical bytes; and it counts the lines up to the first it refuses or gives up on |
| EvidenceRange.ReplayInto | qbitleap-solo-miner/upstream/qbit-mining-bootstrap/scripts/prism-recovery-evidence.py:459-473 | replaying items into the summary's fields gives the state, or the refusal, of the replay as a function; the serial marker changes nothing |
| EvidenceRange.ReplayAppend | qbitleap-solo-miner/upstream/qbit-mining-bootstrap/scripts/prism-recovery-evidence.py:459-473 | replaying two lists of items is replaying one and then the other, with the first refusal of either |
| EvidenceRange.RowsGrow | qbitleap-solo-miner/upstream/qbit-mining-bootstrap/scripts/prism-recovery-evidence.py:334-343 | a run of hashed rows with one more row does what the run and then that line do |
| EvidenceRange.SharesGrow | qbitleap-solo-miner/upstream/qbit-mining-bootstrap/scripts/prism-recovery-evidence.py:345-354 | a share run with one more share, of a higher sequence, does what the run and then that line do |
| EvidenceRange.SlowShare | qbitleap-solo-miner/upstream/qbit-mining-bootstrap/scripts/prism-recovery-evidence.py:305-310 | a share kept as only its checked fields fails and counts as the whole row would |
| EvidenceRange.Items.AddLine | qbitleap-solo-miner/upstream/qbit-mining-bootstrap/scripts/prism-recovery-evidence.py:396-431 | one line changes the fields of the worker, stops it with an error item or makes it give up, as the function of one line says |
| EvidenceRange.LineAdded | qbitleap-solo-miner/upstream/qbit-mining-bootstrap/scripts/prism-recovery-evidence.py:396-431 | adding one line keeps the items standing for the lines read so far, and an error that stops a worker is one every state meets |
| EvidenceCopies.ReplayAlike | qbitleap-solo-miner/upstream/qbit-mining-bootstrap/scripts/prism-recovery-evidence.py:459-473 | replaying copies of a worker's items, with any other NaN objects, gives the state or the refusal of the items themselves, as printed, when no row has a NaN in a key |
| EvidenceCopies.LineAlike | qbitleap-solo-miner/upstream/qbit-mining-bootstrap/scripts/prism-recovery-evidence.py:122-197 | states that differ only in NaN objects that are no keys stay so over a line |
| EvidenceCopies.ReportAlike | qbitleap-solo-miner/upstream/qbit-mining-bootstrap/scripts/prism-recovery-evidence.py:217-280 | and lead to the same printed report or refusal |
| EvidenceCopies.CopiesAreCopies | qbitleap-solo-miner/upstream/qbit-mining-bootstrap/scripts/prism-recovery-evidence.py:568-582 | what arrives of a worker's results is printed as they are |
| EvidenceCopies.NoNaNIsClean | qbitleap-solo-miner/upstream/qbit-mining-bootstrap/scripts/prism-recovery-evidence.py:568-582 | a line without a NaN in its row is one for which the two forms agree |
| EvidenceJson.ShownDetermines | qbitleap-solo-miner/upstream/qbit-mining-bootstrap/scripts/prism-recovery-evidence.py:156-174 | a value without a NaN is what is printed of it |
| EvidenceJson.CopiedApart | qbitleap-solo-miner/upstream/qbit-mining-bootstrap/scripts/prism-recovery-evidence.py:568-582 | a value arrives the same wherever it is sent exactly when there is no NaN in it |
| EvidenceJson.PairLeExactly | qbitleap-solo-miner/upstream/qbit-mining-bootstrap/scripts/prism-recovery-evidence.py:158-161 | two places in the chain compare by the first part in which they differ, numbers by value whatever their types, texts by the first character at which they differ, and nothing else compares; a NaN is never in order |
| EvidenceJson.LeExactly | qbitleap-solo-miner/upstream/qbit-mining-bootstrap/scripts/prism-recovery-evidence.py:176-177 | so do two share sequences |
| EvidenceJson.IntegerTextExactly | qbitleap-solo-miner/upstream/qbit-mining-bootstrap/scripts/prism-recovery-evidence.py:76-85 | an amount's text is a minus sign or none and then one digit or more |
| EvidenceNaN.NaNProgramDiffers | qbitleap-solo-miner/upstream/qbit-mining-bootstrap/scripts/prism-recovery-evidence.py:155-174 | two carry rows of one program whose name is NaN, a clean integrity report and the marker: serially they are reported on, from a worker's results they are refused as one row that breaks its program's chain |
| EvidenceSummary.Summary.LineOf | qbitleap-solo-miner/upstream/qbit-mining-bootstrap/scripts/prism-recovery-evidence.py:122-126 | the class's fields move as the state function of one line says, or it refuses with that error |
| EvidenceSummary.Summary.RecordRow | qbitleap-solo-miner/upstream/qbit-mining-bootstrap/scripts/prism-recovery-evidence.py:133-197 | every branch of a record changes the fields, or refuses, as the state function says |
| EvidenceSummary.Summary.AddShares | qbitleap-solo-miner/upstream/qbit-mining-bootstrap/scripts/prism-recovery-evidence.py:208-215 | a share run changes the fields as its state function says |
| EvidenceSummary.LinesAppend | qbitleap-solo-miner/upstream/qbit-mining-bootstrap/scripts/prism-recovery-evidence.py:283-289 | checking lines in two parts is checking them all |
| EvidenceSummary.NoMarkerNoReport | qbitleap-solo-miner/upstream/qbit-mining-bootstrap/scripts/prism-recovery-evidence.py:217-219 | lines without a completion marker never lead to a report |
| TextLines.DecodeCut | qbitleap-solo-miner/upstream/qbit-mining-bootstrap/scripts/prism-recovery-evidence.py:436-448 | cutting UTF-8 after a newline byte never splits a character: the whole decodes to the parts' text (section 3 of RFC 3629) |
| Utf8.DecodeExactly | qbitleap-solo-miner/upstream/qbit-mining-bootstrap/scripts/prism-recovery-evidence.py:385-393 | bytes decode to a text exactly when they are its encoding (section 3 of RFC 3629), so that no overlong form and no surrogate is accepted |
| Utf8.StartsExactly | qbitleap-solo-miner/upstream/qbit-mining-bootstrap/scripts/prism-recovery-evidence.py:485-497 | an incremental decoder accepts exactly what the encoding of some text starts with |
| Utf8.UniversalLine | qbitleap-solo-miner/upstream/qbit-mining-bootstrap/scripts/prism-recovery-evidence.py:391-393 | a line's end, in any of its three forms, is read as one newline |
| TextLines.ReplacementsAreUniversal | qbitleap-solo-miner/upstream/qbit-mining-bootstrap/scripts/prism-recovery-evidence.py:391-393 | the two replacements, one after the other, are universal newlines |
| TextLines.NothingToReplace | qbitleap-solo-miner/upstream/qbit-mining-bootstrap/scripts/prism-recovery-evidence.py:391-393 | text without a carriage return is unchanged by universal newlines |
| TextLines.TextLinesOf | qbitleap-solo-miner/upstream/qbit-mining-bootstrap/scripts/prism-recovery-evidence.py:292-302 | the loop yields the lines of the text |
| TextLines.LinesFaithful | qbitleap-solo-miner/upstream/qbit-mining-bootstrap/scripts/prism-recovery-evidence.py:292-302 | the lines joined are the text, each ends with its only newline, and only the last may lack one |
| TextLines.FileLinesCut | qbitleap-solo-miner/upstream/qbit-mining-bootstrap/scripts/prism-recovery-evidence.py:388-397 | folding and splitting each side of a cut after a newline byte gives the lines of the whole |
| CarryChains.AlwaysBalanced | qbitleap-solo-miner/upstream/qbit-mining-bootstrap/scripts/prism-recovery-evidence.py:155-174 | after any accepted lines each program's balance is the sum of its rows' net amounts, each label's likewise, and the breaks counted are exactly the unmarked rows off their program's chain, the label breaks those off their label's |
| CarryChains.AlwaysConserved | qbitleap-solo-miner/upstream/qbit-mining-bootstrap/scripts/prism-recovery-evidence.py:166-174 | after any accepted lines each program's balance is the sum over its labels |
| CarryChains.ReportMeansProgramChains | qbitleap-solo-miner/upstream/qbit-mining-bootstrap/scripts/prism-recovery-evidence.py:231-252 | a returned report implies that every unmarked carry row's three balances match its program's chain |
| CarryChains.ReportClearsLabelBreaksOnly | qbitleap-solo-miner/upstream/qbit-mining-bootstrap/scripts/prism-recovery-evidence.py:236-256 | every finding that a returned report cleared is of an unmarked row off its label's chain and on its program's |
| ExportRanges.ExactlyOnePart | qbitleap-solo-miner/upstream/qbit-mining-bootstrap/scripts/prism-recovery-evidence-parallel.py:126-139 | for ascending boundaries exactly one range predicate holds of a key under SQL's three-valued logic, a NULL key's being the last |
| ExportRanges.IntegersOrdered | qbitleap-solo-miner/upstream/qbit-mining-bootstrap/scripts/prism-recovery-evidence-parallel.py:126-139 | the integers, by which the exports are sorted, meet what is asked of an order |
| ExportRanges.PartsAreAnExport | qbitleap-solo-miner/upstream/qbit-mining-bootstrap/scripts/prism-recovery-evidence-parallel.py:126-139 | whatever ordered answer each part's session gives, the parts one after another are an ordered answer (ascending, NULLs last) for the whole table |
| ExportRanges.OneOrderedAnswer | qbitleap-solo-miner/upstream/qbit-mining-bootstrap/scripts/prism-recovery-evidence-parallel.py:98-123 | with distinct keys, two ordered answers agree on every row with a key; only rows with a NULL key may be in another order |
| ExportRanges.PartsEqualSerial | qbitleap-solo-miner/upstream/qbit-mining-bootstrap/scripts/prism-recovery-evidence-parallel.py:98-139 | with distinct keys and at most one NULL key the parts, one after another, are the serial answer |
| ExportRanges.GuardedMapping | qbitleap-solo-miner/upstream/qbit-mining-bootstrap/scripts/prism-recovery-evidence-parallel.py:110-121 | testing the range before the legacy pattern maps exactly the headers of the range, each to the share the whole mapping gives it |
| ExportRanges.KeepsExactly | qbitleap-solo-miner/upstream/qbit-mining-bootstrap/scripts/prism-recovery-evidence-parallel.py:110-121 | the serial mapping keeps accepted shares whose id matches, and a part exactly those of them whose header is in its range, a NULL header in the last |
| ExportRanges.Submitted | qbitleap-solo-miner/upstream/qbit-mining-bootstrap/scripts/prism-recovery-evidence-parallel.py:295-300 | the order parts are submitted in holds every part |
| ExportRanges.Export | qbitleap-solo-miner/upstream/qbit-mining-bootstrap/scripts/prism-recovery-evidence-parallel.py:293-324 | for every order the parts complete in, the output is the parts in script order exactly when nothing fails; a failure leaves a prefix of them, and one before the last part is copied leaves a prefix without any of the last part |
| ExportRanges.PartsPrintSerial | qbitleap-solo-miner/upstream/qbit-mining-bootstrap/scripts/prism-recovery-evidence-parallel.py:98-123 | the printed parts, end to end, are what the serial script prints: shares, the kinds between, share hashes, the kinds after |
| TextRows.RowsRendered | qbitleap-solo-miner/upstream/qbit-mining-bootstrap/scripts/prism_load_trend.py:585-594 | rows written out and read back are the same rows |
| TextRows.AppendedRows | qbitleap-solo-miner/upstream/qbit-mining-bootstrap/scripts/prism_load_trend.py:644-649 | appending rows leaves the old text as a prefix, and reads back as the old rows and then the new ones, whether or not the old text ended its last line |
| TextRows.AppendedText | qbitleap-solo-miner/upstream/qbit-mining-bootstrap/scripts/prism_load_trend.py:644-649 | the text written is the old one, ended by a newline if it was not, and then each row and a newline |
| TextRows.FirstLineRow | qbitleap-solo-miner/upstream/qbit-mining-bootstrap/scripts/prism_load_trend.py:585-594 | a line that is broken off and more text read as the line's row, if it is one, and then the rows of the rest |
| TrendRows.PromotionsDiffer | qbitleap-solo-miner/upstream/qbit-mining-bootstrap/scripts/prism_load_trend.py:150-163 | the promotion rows of two preset rows have one identity only if the preset rows do |
| TrendRows.OneRecord | qbitleap-solo-miner/upstream/qbit-mining-bootstrap/scripts/prism_load_trend.py:150-163 | two rows have one identity exactly when they are of one kind and of one attempt of one run and agree, jobs in job, result and commit, preset and missing rows in the preset, and rows of any other kind in preset and asset URL |
| TrendRows.RecoveredExactly | qbitleap-solo-miner/upstream/qbit-mining-bootstrap/scripts/prism_load_trend.py:597-605 | a promotion is recovered exactly for a preset row that was promoted, with an asset URL that the recorded copy does not have, and repeats where, when and of what it was recorded |
| TrendAttempt.SeenExactly | qbitleap-solo-miner/upstream/qbit-mining-bootstrap/scripts/prism_load_trend.py:628-631 | the lookup an attempt builds holds exactly the identities on the lane |
| TrendAttempt.HoldsExactly | qbitleap-solo-miner/upstream/qbit-mining-bootstrap/scripts/prism_load_trend.py:628-631 | so a row counts as recorded exactly when some row of its lane, of any month, agrees with it in those fields |
| TrendAttempt.FilesGrow | qbitleap-solo-miner/upstream/qbit-mining-bootstrap/scripts/prism_load_trend.py:644-651 | after an attempt's commit each file starts with what it held, and each trend file's rows are the old ones and then the additions to it |
| TrendAttempt.NoTwiceExactly | qbitleap-solo-miner/upstream/qbit-mining-bootstrap/scripts/prism_load_trend.py:626-640 | a commit on a branch without repeated identities leaves it so exactly when no two additions share a lane and identity |
| TrendAttempt.DistinctExactly | qbitleap-solo-miner/upstream/qbit-mining-bootstrap/scripts/prism_load_trend.py:632-640 | additions repeat an identity exactly when the batch holds both a promotion row and a preset row that would now leave that promotion |
| TrendAttempt.PromotionTwice | qbitleap-solo-miner/upstream/qbit-mining-bootstrap/scripts/prism_load_trend.py:626-640 | a branch holds one preset row that left no asset, and a batch holds that row, now promoted with one, and its promotion row: the branch is free of repeated identities before the attempt and not after it |
| TrendAttempt.NoPromotionNoClash | qbitleap-solo-miner/upstream/qbit-mining-bootstrap/scripts/prism_load_trend.py:597-605 | a batch without promotion rows never does |
| TrendAttempt.BatchThere | qbitleap-solo-miner/upstream/qbit-mining-bootstrap/scripts/prism_load_trend.py:626-640 | after an attempt's commit every identity of the batch is on its lane |
| TrendAttempt.RowsRecorded | qbitleap-solo-miner/upstream/qbit-mining-bootstrap/scripts/prism_load_trend.py:608-651 | after a commit the first row given of each record has on its lane a row that agrees with it, and is itself in its month's file when its lane had none |
| TrendAttempt.BundleCited | qbitleap-solo-miner/upstream/qbit-mining-bootstrap/scripts/prism_load_trend.py:597-640 | after a commit the asset of a promoted preset row is cited on its lane |
| TrendAttempt.NothingElseAdded | qbitleap-solo-miner/upstream/qbit-mining-bootstrap/scripts/prism_load_trend.py:626-651 | every file keeps its rows and gains only rows given that its lane did not hold, and promotions recovered from rows given |
| TrendAttempt.SkippedExactly | qbitleap-solo-miner/upstream/qbit-mining-bootstrap/scripts/prism_load_trend.py:632-633 | the rows counted as skipped are those whose lane held one that agrees with them |
| TrendAttempt.ReadmeOnce | qbitleap-solo-miner/upstream/qbit-mining-bootstrap/scripts/prism_load_trend.py:650-651 | the README is written with the branch's first commit and never again |
| TrendAttempt.NothingToAdd | qbitleap-solo-miner/upstream/qbit-mining-bootstrap/scripts/prism_load_trend.py:641-643 | when nothing is to be added every identity of the batch is already there |
| TrendAttempt.UniqueDistinct | qbitleap-solo-miner/upstream/qbit-mining-bootstrap/scripts/prism_load_trend.py:614-617 | the batch an attempt works on lists every identity given, once |
| TrendAttempt.Attempt | qbitleap-solo-miner/upstream/qbit-mining-bootstrap/scripts/prism_load_trend.py:620-654 | one attempt's loop gives the additions and counts of the specification, and the contents it writes make the committed files |
| TrendBranch.LandsOnItsParent | qbitleap-solo-miner/upstream/qbit-mining-bootstrap/scripts/prism_load_trend.py:580-582 | a push the remote takes without force lands on the commit's own parent, or has already landed |
| TrendBranch.RefusalMeansProgress | qbitleap-solo-miner/upstream/qbit-mining-bootstrap/scripts/prism_load_trend.py:660-664 | a push is refused only when the branch has moved past the commit's parent |
| TrendBranch.RunsAreSafe | qbitleap-solo-miner/upstream/qbit-mining-bootstrap/scripts/prism_load_trend.py:608-667 | over every run of any number of writers, with pushes accepted, refused, or applied and reported failed, no identity is twice in a lane, every writer that returned has its batch on the branch, each trend file only grows at its end and history only advances |
| TrendBranch.RunAdvances | qbitleap-solo-miner/upstream/qbit-mining-bootstrap/scripts/prism_load_trend.py:608-667 | between any two moments of a run nothing recorded is lost and every file grows by a suffix |
| TrendBranch.ReturnedMeansRecorded | qbitleap-solo-miner/upstream/qbit-mining-bootstrap/scripts/prism_load_trend.py:641-659 | once a writer has returned, every identity of its batch is on the branch from then on |
| TrendBranch.ReturnedRowsRecorded | qbitleap-solo-miner/upstream/qbit-mining-bootstrap/scripts/prism_load_trend.py:608-667 | and every row it was given has from then on, on the lane of the first row given that agrees with it, a row that does |
| TrendBranch.AttemptsRunOut | qbitleap-solo-miner/upstream/qbit-mining-bootstrap/scripts/prism_load_trend.py:619-667 | every attempt that is not acknowledged leaves its writer one fewer |
| TrendBranch.UniqueIsSettled | qbitleap-solo-miner/upstream/qbit-mining-bootstrap/scripts/prism_load_trend.py:614-617 | a batch of rows without promotions meets what the runs ask of a writer's batch |
| TrendBranch.OneRowIsSettled | qbitleap-solo-miner/upstream/qbit-mining-bootstrap/scripts/prism_load_trend.py:951-972 | so does the single promotion row that the cite action appends |
| TrendBranch.AppendRows | qbitleap-solo-miner/upstream/qbit-mining-bootstrap/scripts/prism_load_trend.py:608-667 | the retry loop returns at the first attempt that finds nothing to add or whose push is accepted, with that attempt's counts, and raises exactly when no attempt does |
| Lpt.LptBound | qbitleap-solo-miner/upstream/qbit-mining-bootstrap/scripts/run_rust_test_shard.py:69-77 | for every list of durations, longest first, the largest shard is at most 4/3 - 1/(3 count) times the largest of any other assignment |
| Lpt.ListBound | qbitleap-solo-miner/upstream/qbit-mining-bootstrap/scripts/run_rust_test_shard.py:69-77 | in any order the greedy deal is within 2 - 1/count of any other assignment |
| Lpt.LessItsLastJob | qbitleap-solo-miner/upstream/qbit-mining-bootstrap/scripts/run_rust_test_shard.py:74-77 | no shard without its last target exceeds any other shard |
| Lpt.LongJobsDoNotFit | qbitleap-solo-miner/upstream/qbit-mining-bootstrap/scripts/run_rust_test_shard.py:74-77 | when the last target is long and overflows a bound, no assignment of the targets so far keeps to the bound |
| Lpt.ShardUsed | qbitleap-solo-miner/upstream/qbit-mining-bootstrap/scripts/run_rust_test_shard.py:74-77 | with positive durations a shard is used exactly when there are more targets than its index |
| RustShards.WorkspaceTargets | qbitleap-solo-miner/upstream/qbit-mining-bootstrap/scripts/run_rust_test_shard.py:54-66 | the discovery loop gives the workspace's targets in order, or the refusal of the first unsupported one |
| ShardMeaning.DiscoveredExactly | qbitleap-solo-miner/upstream/qbit-mining-bootstrap/scripts/run_rust_test_shard.py:54-66 | over the metadata's own entries: discovery succeeds exactly when every entry of a member package that is no build script has one known kind, and then gives each of them once, package, kind and name, sorted by these; otherwise it is refused with the kinds of the first that has not |
| RustShards.Deal | qbitleap-solo-miner/upstream/qbit-mining-bootstrap/scripts/run_rust_test_shard.py:72-77 | the in-place loop gives the greedy deal: each target in turn to the lightest shard, the first of equals |
| RustShards.GreedyUnique | qbitleap-solo-miner/upstream/qbit-mining-bootstrap/scripts/run_rust_test_shard.py:74-77 | there is only one greedy deal |
| RustShards.ShardCommands | qbitleap-solo-miner/upstream/qbit-mining-bootstrap/scripts/run_rust_test_shard.py:69-90 | a shard's commands are those of its targets, in order, or the refusal |
| ShardMeaning.ShardExactly | qbitleap-solo-miner/upstream/qbit-mining-bootstrap/scripts/run_rust_test_shard.py:69-80 | a shard is refused when there is none of that index, when discovery is or when it is dealt nothing; otherwise it is what one dealing of the targets gives it, longest first and equals in order, each to the lightest shard, the first of equals, sorted |
| ShardMeaning.CommandsExactly | qbitleap-solo-miner/upstream/qbit-mining-bootstrap/scripts/run_rust_test_shard.py:82-89 | each target is run once by package, kind and name, and one with ignored contracts once more for those alone with its arguments, the scale cases under the release profile |
| ShardMeaning.CommandsInOrder | qbitleap-solo-miner/upstream/qbit-mining-bootstrap/scripts/run_rust_test_shard.py:81-90 | a shard's commands are those of its targets, one target after another |
| RustShards.ShardsCoverEveryTarget | qbitleap-solo-miner/upstream/qbit-mining-bootstrap/scripts/run_rust_test_shard.py:69-80 | when every shard has targets, the shards together hold each target of the unsplit run exactly as often |
| ShardMeaning.ShardsRunTheWorkspace | qbitleap-solo-miner/upstream/qbit-mining-bootstrap/scripts/run_rust_test_shard.py:54-80 | and those are exactly the workspace's entries |
| RustShards.ShardsCoverEveryCommand | qbitleap-solo-miner/upstream/qbit-mining-bootstrap/scripts/run_rust_test_shard.py:81-90 | and so run each of its commands exactly as often |
| RustShards.EmptyShard | qbitleap-solo-miner/upstream/qbit-mining-bootstrap/scripts/run_rust_test_shard.py:78-80 | a shard is refused as empty exactly when there are no more targets than its index |
| RustShards.ShardsBalanced | qbitleap-solo-miner/upstream/qbit-mining-bootstrap/scripts/run_rust_test_shard.py:36-77 | the shards this program deals are within 4/3 - 1/(3 count) of any other assignment |
| RustShards.ListingOrderIrrelevant | qbitleap-solo-miner/upstream/qbit-mining-bootstrap/scripts/run_rust_test_shard.py:66-78 | the order in which the metadata lists targets does not change any shard |
| Merkle.BranchProvesAnyCoinbase | qbitleap-solo-miner/upstream/qbit-mining-bootstrap/lab/auxpow/auxpow_coordinator.py:410-433 | for every transaction list and every replacement coinbase, folding the branch taken from the placeholder gives the full duplicate-last Merkle root of the list with that coinbase |
| Merkle.BuildBranch | qbitleap-solo-miner/upstream/qbit-mining-bootstrap/lab/auxpow/auxpow_coordinator.py:410-426 | the level-by-level loop returns that branch |
| Merkle.NextLevel | qbitleap-solo-miner/upstream/qbit-mining-bootstrap/lab/auxpow/auxpow_coordinator.py:419-424 | the inner loop pairs a level, the last of an odd one with itself |
| Merkle.FoldBranch | qbitleap-solo-miner/upstream/qbit-mining-bootstrap/lab/auxpow/auxpow_coordinator.py:429-433 | the loop folds the branch onto the coinbase |
| Merkle.SiblingsPair | qbitleap-solo-miner/upstream/qbit-mining-bootstrap/lab/auxpow/auxpow_coordinator.py:410-426 | a branch takes at each level the neighbour with which a hash is paired |
| StratumCodec.FromHexSize | qbitleap-solo-miner/upstream/qbit-mining-bootstrap/lab/auxpow/stratum_codec.py:20-29 | accepted text holds a byte for two characters at most, and exactly that many when it is digits only |
| HexText.FromHexExactly | qbitleap-solo-miner/upstream/qbit-mining-bootstrap/lab/auxpow/stratum_codec.py:20-29 | text is accepted as bytes exactly when it writes them, two digits of either case for each, with white space only before, between and after them |
| HexText.DigitsExactly | qbitleap-solo-miner/upstream/qbit-mining-bootstrap/lab/auxpow/stratum_codec.py:20-29 | a digit's value is its place among the sixteen, in either case |
| HexText.SpacesExactly | qbitleap-solo-miner/upstream/qbit-mining-bootstrap/lab/auxpow/stratum_codec.py:20-29 | and six characters are the white space |
| StratumCodec.FlipInvolution | qbitleap-solo-miner/upstream/qbit-mining-bootstrap/lab/auxpow/stratum_codec.py:66-69 | flipping words is defined for whole words and is its own inverse |
| StratumCodec.PrevhashRoundTrip | qbitleap-solo-miner/upstream/qbit-mining-bootstrap/lab/auxpow/stratum_codec.py:72-82 | a display hash sent through notify serializes back to its bytes reversed, and fills its field exactly when it is digits only |
| StratumCodec.CanonicalIsFull | qbitleap-solo-miner/upstream/qbit-mining-bootstrap/lab/auxpow/stratum_codec.py:102-127 | the canonical header is 80 bytes exactly when every field is digits only and the root is 32 bytes: white space is accepted between bytes and shortens it |
| StratumCodec.SpacesShorten | qbitleap-solo-miner/upstream/qbit-mining-bootstrap/lab/auxpow/stratum_codec.py:102-127 | a header of zeros with a nonce of eight spaces is accepted and is 76 bytes |
| StratumCodec.SerializeExactly | qbitleap-solo-miner/upstream/qbit-mining-bootstrap/lab/auxpow/stratum_codec.py:102-127 | a header is serialized exactly when every field has its length and holds whole bytes of hexadecimal text, white space between them allowed, the root is 32 bytes, and the bytes together make whole words |
| StratumCodec.CanonicalBytes | qbitleap-solo-miner/upstream/qbit-mining-bootstrap/lab/auxpow/stratum_codec.py:102-127 | of fields of digits only and a root of 32 bytes the header is 80 bytes, and byte by byte: the version's four from the last to the first, the previous hash with each word of four turned round, the root, and then the time, the bits and the nonce, each from its last byte to its first |
| StratumCodec.HeaderDetermined | qbitleap-solo-miner/upstream/qbit-mining-bootstrap/lab/auxpow/stratum_codec.py:102-127 | which leaves no byte open |
| StratumCodec.DiagnosticBytes | qbitleap-solo-miner/upstream/qbit-mining-bootstrap/lab/auxpow/stratum_codec.py:170-214 | every diagnostic header of digits only, byte by byte: which form of the previous hash it has, and whether its numbers are turned round |
| StratumCodec.NotifiedBackwards | qbitleap-solo-miner/upstream/qbit-mining-bootstrap/lab/auxpow/stratum_codec.py:72-77 | a notified previous hash puts the displayed one into the header from its last byte to its first |
| StratumCodec.BlockHeaderBytes | qbitleap-solo-miner/upstream/qbit-mining-bootstrap/scripts/prism_shipped_image_lane.py:355-370 | the independent builder, from its own concatenation, makes those 80 bytes too |
| StratumCodec.CanonicalIsRevFields | qbitleap-solo-miner/upstream/qbit-mining-bootstrap/lab/auxpow/stratum_codec.py:170-214 | every 80-byte canonical header is the serialized-revfields diagnostic header |
| StratumCodec.BuildersAgree | qbitleap-solo-miner/upstream/qbit-mining-bootstrap/scripts/prism_shipped_image_lane.py:355-370 | every 80-byte canonical header is the one the independent builder makes of the same fields and root |
| VersionRolling.VersionRolled | qbitleap-solo-miner/upstream/qbit-mining-bootstrap/lab/auxpow/stratum_codec.py:51-59 | version bits are accepted exactly when both texts are eight-character numbers and no bit is outside the mask; the rolled version then differs from the job's only inside the mask, where it is the miner's bits, and is the eight digits of its value |
| VersionRolling.IntWordExactly | qbitleap-solo-miner/upstream/qbit-mining-bootstrap/lab/auxpow/stratum_codec.py:40-48 | eight characters are a number exactly when they are digits with white space only around them |
| VersionRolling.NotRolled | qbitleap-solo-miner/upstream/qbit-mining-bootstrap/lab/auxpow/stratum_codec.py:51-59 | without version bits the version is the job's own in lower case |
| AuxPowWork.SplitsOnce | qbitleap-solo-miner/upstream/qbit-mining-bootstrap/lab/auxpow/auxpow_coordinator.py:1444-1447 | the coinbase splits exactly when the placeholder occurs at one place only |
| AuxPowWork.ExtranonceReplacesPlaceholder | qbitleap-solo-miner/upstream/qbit-mining-bootstrap/lab/auxpow/stratum_codec.py:85-91 | what a miner assembles is the template's coinbase with its extranonces where the placeholder was |
| AuxPowWork.MakeJob | qbitleap-solo-miner/upstream/qbit-mining-bootstrap/lab/auxpow/auxpow_coordinator.py:1425-1466 | the job carries the split, the branch of the template's transactions and the notify previous hash, and is refused exactly when the placeholder or the hash is unusable |
| AuxPowWork.AssembleHeader | qbitleap-solo-miner/upstream/qbit-mining-bootstrap/lab/auxpow/auxpow_coordinator.py:1982-2001 | it refuses exactly text that is not hexadecimal, a field of the wrong length and fields that white space leaves short of whole words, the coinbase before the header; otherwise the header is the canonical one over the branch folded onto the assembled coinbase, and for a job made of a template an 80-byte header carries the root of the template's transactions with that coinbase first |
| AuxPowWork.AssembledExactly | qbitleap-solo-miner/upstream/qbit-mining-bootstrap/lab/auxpow/stratum_codec.py:85-91 | a coinbase is assembled exactly when its four texts are whole pairs of characters of hexadecimal text |
| AuxPowWork.HeaderCommitsToSubmission | qbitleap-solo-miner/upstream/qbit-mining-bootstrap/lab/auxpow/auxpow_coordinator.py:1949-1979 | for extranonces that are digits only, whatever else the miner chose, an 80-byte header it hashed carries exactly the Merkle root of the block rebuilt at submission, with the coinbase read back from its bytes |
| AuxPowWork.HeaderCommitsToCoinbase | qbitleap-solo-miner/upstream/qbit-mining-bootstrap/lab/auxpow/auxpow_coordinator.py:1982-2001 | for any extranonces an 80-byte header carries the Merkle root of the template's transactions behind the bytes of the assembled coinbase |
| AuxPowWork.RootIsTreeRoot | qbitleap-solo-miner/upstream/qbit-mining-bootstrap/lab/auxpow/auxpow_coordinator.py:410-433 | the root that those headers carry is that of the tree whose rows are hashed by neighbours, the left one first, and the last one of an odd row with itself |
| AuxPowWork.MinedCoinbase | qbitleap-solo-miner/upstream/qbit-mining-bootstrap/lab/auxpow/stratum_codec.py:85-91 | a coinbase is what stood before the placeholder, the two extranonces in their order, and what stood after it |
| AuxPowWork.AssembledSize | qbitleap-solo-miner/upstream/qbit-mining-bootstrap/lab/auxpow/stratum_codec.py:85-91 | extranonces of the placeholder's length leave the coinbase at the template's size exactly when they are digits only |
| AuxPowWork.SpacesShortenCoinbase | qbitleap-solo-miner/upstream/qbit-mining-bootstrap/lab/auxpow/auxpow_coordinator.py:1699-1704 | an extranonce2 of 16 spaces is assembled into a coinbase 8 bytes short |
| AuxPowWork.NotifiedBuildersAgree | qbitleap-solo-miner/upstream/qbit-mining-bootstrap/scripts/prism_shipped_image_lane.py:355-370 | from the texts of a notify on, coinbase, branch and fields, the independent builder makes every 80-byte header that the server assembles for the job's own version and time |
| Replays.UnknownIffShort | qbitleap-solo-miner/upstream/qbit-mining-bootstrap/scripts/prism_load_regress.py:471-492 | a run goes unjudged exactly when fewer than the least baseline's runs precede it, whatever was flagged or accepted |
| Replays.StreakBounded | qbitleap-solo-miner/upstream/qbit-mining-bootstrap/scripts/prism_load_regress.py:472-478 | every streak of flagged runs is at most a window long |
| Replays.VerdictsStand | qbitleap-solo-miner/upstream/qbit-mining-bootstrap/scripts/prism_load_regress.py:471-487 | later runs never change how a run was judged on its own night, except to accept a flagged run, which then stands in a window of runs each flagged on its own night |
| Replays.LeftOutUntilAccepted | qbitleap-solo-miner/upstream/qbit-mining-bootstrap/scripts/prism_load_regress.py:475-479 | a flagged run stays out of every later baseline until such a window is complete |
| Replays.StreakBecomesBaseline | qbitleap-solo-miner/upstream/qbit-mining-bootstrap/scripts/prism_load_regress.py:475-479 | the baseline right after a full-window streak is exactly the streak |
| Replays.FirstBadStays | qbitleap-solo-miner/upstream/qbit-mining-bootstrap/scripts/prism_load_regress.py:495-511 | while a streak is shorter than the window another flagged run leaves its first run the same; after a full window the next starts its own; the run before the first is not flagged |
| Regression.EvaluateNumber | qbitleap-solo-miner/upstream/qbit-mining-bootstrap/scripts/prism_load_regress.py:448-511 | the in-place replay with its two lists gives the outcome of the replay as a function |
| Regression.Report | qbitleap-solo-miner/upstream/qbit-mining-bootstrap/scripts/prism_load_regress.py:488-511 | the closing scan finds the streak, the first bad run and the last good run with its basis |
| RegressionMeaning.MedianExactly | qbitleap-solo-miner/upstream/qbit-mining-bootstrap/scripts/prism_load_regress.py:424-434 | the median is the middle value, or the mean of the two middle ones, by how many values are at most and at least it |
| RegressionMeaning.OneMedian | qbitleap-solo-miner/upstream/qbit-mining-bootstrap/scripts/prism_load_regress.py:424-434 | which no other value is |
| RegressionMeaning.LimitExactly | qbitleap-solo-miner/upstream/qbit-mining-bootstrap/scripts/prism_load_regress.py:415-434 | what a run may differ by is at least each of the rule's three terms and equal to one of them, the spread being the measured one or, without it, the scaled median distance from the median |
| RegressionMeaning.VerdictExactly | qbitleap-solo-miner/upstream/qbit-mining-bootstrap/scripts/prism_load_regress.py:448-487 | a run is judged against exactly that limit of its baseline, on the side that is worse |
| RegressionMeaning.OutcomeLimit | qbitleap-solo-miner/upstream/qbit-mining-bootstrap/scripts/prism_load_regress.py:488-511 | the reported limit is that of the baseline, and the run is reported exactly when it is beyond it |
| RegressionMeaning.OutcomeExactly | qbitleap-solo-miner/upstream/qbit-mining-bootstrap/scripts/prism_load_regress.py:488-511 | an unknown outcome counts the usable runs, and any other tells whether a judgement was made without a measured spread |
| RegressionMeaning.RegressedExactly | qbitleap-solo-miner/upstream/qbit-mining-bootstrap/scripts/prism_load_regress.py:495-511 | a regression names the run its streak began at and the last good run before it, with its basis |
| Regression.UnknownMeansShort | qbitleap-solo-miner/upstream/qbit-mining-bootstrap/scripts/prism_load_regress.py:488-492 | the status is unknown exactly when the history is shorter than the rule needs |
| Regression.ReportedStreak | qbitleap-solo-miner/upstream/qbit-mining-bootstrap/scripts/prism_load_regress.py:495-511 | a reported streak is at most a window long and begins at the first bad run, and each of its runs was flagged on its own night |
| Regression.NewLevelAccepted | qbitleap-solo-miner/upstream/qbit-mining-bootstrap/scripts/prism_load_regress.py:460-485 | after a window of worse runs the next is judged against exactly those, so a run at their median is not reported |
| Regression.WorseStillReported | qbitleap-solo-miner/upstream/qbit-mining-bootstrap/scripts/prism_load_regress.py:415-434 | a run reported as worse would be reported had it been worse still |
| CfgPredicate.ProvesExactlyTrees | qbitleap-solo-miner/upstream/qbit-mining-bootstrap/scripts/rust_test_reachability.py:93-129 | a truth value is given exactly for the tokens of a written test/all/any/not tree, with optional trailing commas, and it is the tree's value |
| CfgPredicate.Enabled | qbitleap-solo-miner/upstream/qbit-mining-bootstrap/scripts/rust_test_reachability.py:93-129 | the parser with its shared position answers so for every token list |
| CfgPredicate.ParsedTree | qbitleap-solo-miner/upstream/qbit-mining-bootstrap/scripts/rust_test_reachability.py:98-123 | whatever the parser takes is a written tree, with its value |
| CfgPredicate.ValueMeans | qbitleap-solo-miner/upstream/qbit-mining-bootstrap/scripts/rust_test_reachability.py:93-129 | test holds, all when every argument does, any when one does, and not when its argument does not |
| CfgPredicate.Spelled | qbitleap-solo-miner/upstream/qbit-mining-bootstrap/scripts/rust_test_reachability.py:98-123 | how such predicates are written: a name, its arguments in parentheses with commas between, and perhaps one after the last |
| ModuleWalk.Walk.File | qbitleap-solo-miner/upstream/qbit-mining-bootstrap/scripts/rust_test_reachability.py:160-181 | the walk ends on every module graph, cyclic ones too, by the files not yet above and the length of the scope, and settles the file it is asked for |
| ModuleWalk.Walk.Scope | qbitleap-solo-miner/upstream/qbit-mining-bootstrap/scripts/rust_test_reachability.py:183-256 | the scan of a stretch of masked code ends, never reads outside it or an unmatched delimiter, records every function it declares, and leaves every module it declares visited, outside the repository or already above |
| ModuleWalk.WalkTargets | qbitleap-solo-miner/upstream/qbit-mining-bootstrap/scripts/rust_test_reachability.py:151-158 | the walk over all targets ends with nothing open and every root in the repository visited |
| ModuleWalk.ProvedCitations | qbitleap-solo-miner/upstream/qbit-mining-bootstrap/scripts/rust_test_reachability.py:151-256 | a recorded function is one that a file defines to which declarations lead from a target through different files of the repository; where no scope names two modules the same, every such function is recorded |
| ModuleWalk.Reaches | qbitleap-solo-miner/upstream/qbit-mining-bootstrap/scripts/rust_test_reachability.py:160-256 | the walk visits every file that declarations lead to through different files of the repository, where no scope names two modules the same |
| ModuleWalk.OneChain | qbitleap-solo-miner/upstream/qbit-mining-bootstrap/scripts/rust_test_reachability.py:213-238 | there declarations lead to a file under one module path in one way only |
| ModuleWalk.NothingElseLeftOut | qbitleap-solo-miner/upstream/qbit-mining-bootstrap/scripts/rust_test_reachability.py:163-164 | however the modules are named, every module that a visited file declares is visited, outside the repository, or a file already above |
| ModuleMeaning.FunctionsExactly | qbitleap-solo-miner/upstream/qbit-mining-bootstrap/scripts/rust_test_reachability.py:183-256 | by the places of a file's characters and no function of the scan: a file defines exactly the functions whose items stand in it, or between the braces of modules in it, where the scan of blanks, attributes and items comes to them; under the attributes since the last item, all enabled, a header that is a function's, and a body that no leading inner attribute forbids; at one more than the newlines before it, and under the names of the modules around it |
| ModuleMeaning.ChildrenExactly | qbitleap-solo-miner/upstream/qbit-mining-bootstrap/scripts/rust_test_reachability.py:212-238 | it declares exactly the files that such module items with a semicolon mean: the one path given, beside the file, or in the module directory the one of two that exists alone; and with it the directory of that file's own modules |
| ModuleMeaning.StopExactly | qbitleap-solo-miner/upstream/qbit-mining-bootstrap/scripts/rust_test_reachability.py:204-208 | an item ends at the first brace or semicolon outside the brackets it opens, or with its scope |
| ModuleMeaning.EntriesExactly | qbitleap-solo-miner/upstream/qbit-mining-bootstrap/scripts/rust_test_reachability.py:187-256 | what a scope is read to declare is what stands at the places its scan comes to |
| ModuleMeaning.RootsExactly | qbitleap-solo-miner/upstream/qbit-mining-bootstrap/scripts/rust_test_reachability.py:157-158 | the walk starts at each target's file, in that file's directory and under no name |
| ModuleWalk.NamedOnceExactly | qbitleap-solo-miner/upstream/qbit-mining-bootstrap/scripts/rust_test_reachability.py:213-238 | no scope names two modules the same exactly when no module of any scope has the name of a later one of it |
| ModuleText.CodeClosed | qbitleap-solo-miner/upstream/qbit-mining-bootstrap/scripts/rust_test_reachability.py:168-181 | matched delimiters put every opener's closer in the file, with nothing crossing |
| ModuleText.InsideClosed | qbitleap-solo-miner/upstream/qbit-mining-bootstrap/scripts/rust_test_reachability.py:226-228 | so the stretch between a scope's braces is again one whose delimiters match |
| ModuleText.MarkInside | qbitleap-solo-miner/upstream/qbit-mining-bootstrap/scripts/rust_test_reachability.py:193-203 | an attribute that begins in a scope has its closing bracket in it |
| ModuleText.Advance | qbitleap-solo-miner/upstream/qbit-mining-bootstrap/scripts/rust_test_reachability.py:189-208 | one step over blanks, an attribute or an item leaves what the rest of the scope declares as it is, or finds that nothing more is declared |
| ModuleText.Classify | qbitleap-solo-miner/upstream/qbit-mining-bootstrap/scripts/rust_test_reachability.py:209-256 | an item declares a module, defines a function or is passed over as its header and attributes say |
| ModuleText.FindPath | qbitleap-solo-miner/upstream/qbit-mining-bootstrap/scripts/rust_test_reachability.py:214-225 | the last path that the attributes give is the module's, unless one of them cannot be read |
| ModuleText.CheckBody | qbitleap-solo-miner/upstream/qbit-mining-bootstrap/scripts/rust_test_reachability.py:240-250 | a function counts exactly when every inner attribute at the start of its body allows it |
| Delimiters.Pairs | qbitleap-solo-miner/upstream/qbit-mining-bootstrap/scripts/check_prism_pool_acquires.py:79-95 | exactly the well-nested token lists are accepted, and the result is a properly nested involution of the delimiters, each facing its own shape |
| Delimiters.PairUp | qbitleap-solo-miner/upstream/qbit-mining-bootstrap/scripts/check_prism_pool_acquires.py:79-95 | the loop with its stack is the scan |
| DelimiterFaults.RefusedExactly | qbitleap-solo-miner/upstream/qbit-mining-bootstrap/scripts/check_prism_pool_acquires.py:79-95 | a text is refused as unclosed exactly when it is not well-nested and more text could make it so; and at a token exactly when that is the first after which none could, as unmatched when what stands before it is well-nested and as mismatched when it is not |
| Delimiters.AcceptsExactly | qbitleap-solo-miner/upstream/qbit-mining-bootstrap/scripts/check_prism_pool_acquires.py:79-95 | the scan succeeds exactly on the texts of forests |
| Delimiters.PartnersPaired | qbitleap-solo-miner/upstream/qbit-mining-bootstrap/scripts/check_prism_pool_acquires.py:79-95 | a forest's partners are a properly nested involution on exactly its delimiters |
| Census.Close | qbitleap-solo-miner/upstream/qbit-mining-bootstrap/scripts/check_prism_pool_acquires.py:199-228 | both fixpoint loops end, at the least set that holds the initial names and follows every alias |
| Census.LeastIsFollowed | qbitleap-solo-miner/upstream/qbit-mining-bootstrap/scripts/check_prism_pool_acquires.py:199-228 | that set holds exactly the names that a chain of aliases leads to from an initial one |
| Census.OrderIrrelevant | qbitleap-solo-miner/upstream/qbit-mining-bootstrap/scripts/check_prism_pool_acquires.py:203-212 | that set does not depend on the order of the sources |
| BlockHistory.ReconciledDistinct | qbitleap-solo-miner/backend/permissionless_telemetry.py:60-84 | whatever was stored, reconciling, before it cuts its result, leaves one entry a height and has every height |
| BlockHistory.HeightKept | qbitleap-solo-miner/backend/permissionless_telemetry.py:60-84 | the returned history has a height exactly when fewer than a hundred reconciled entries come before its first one |
| BlockMeaning.ReconciledEntries | qbitleap-solo-miner/backend/permissionless_telemetry.py:60-84 | reconciling leaves one entry a block, in the order the blocks are first met, its time and worker those of the last later item of that block with a name, or else of its first, and its hash the last that one has |
| BlockMeaning.CutFirst | qbitleap-solo-miner/backend/permissionless_telemetry.py:84 | what a poll starts from is the first hundred of them |
| BlockMeaning.TakesExactly | qbitleap-solo-miner/backend/permissionless_telemetry.py:226-245 | a new event gives its worker and time to the closest entry that is anonymous, confirmed and within 300 seconds, the first of equals, and otherwise waits behind the others |
| BlockMeaning.RevalidatedExactly | qbitleap-solo-miner/backend/permissionless_telemetry.py:123-141 | looking up again the entries with a height and no hash drops exactly those whose block the node gives and finds not to pay, gives the ones that pay their hash, and keeps every other as it is, in order |
| BlockMeaning.ScanUpdates | qbitleap-solo-miner/backend/permissionless_telemetry.py:148-167 | a scan changes no entry it was given but for the hash of a block it found to pay |
| BlockMeaning.StoredExactly | qbitleap-solo-miner/backend/permissionless_telemetry.py:142-170 | a scan that reached the tip leaves the hundred highest of its entries, highest first, equals in their order and every dropped one no higher than any kept, with the events it did not attach; one that stopped leaves its history as it stands, every event, and the cursor before the height that failed |
| BlockMeaning.FirstScan | qbitleap-solo-miner/backend/permissionless_telemetry.py:142-150 | the first scan, when the node answers for every height, examines the tip and the 20 heights below it, or every height there is |
| BlockMeaning.NextScan | qbitleap-solo-miner/backend/permissionless_telemetry.py:142-150 | a later one goes on right after the cursor |
| BlockPolls.HeightsStayDistinct | qbitleap-solo-miner/backend/permissionless_telemetry.py:114-170 | after any poll no two entries of the stored history have one height |
| BlockPolls.EachHeightOnce | qbitleap-solo-miner/backend/permissionless_telemetry.py:148-170 | while the tip never falls below the cursor, the heights examined over a run, from a fresh state too, are exactly those from the first scan's start up to the new cursor, each once and in order, a stopped scan resuming at the height that failed |
| BlockPolls.ScanTakesOldest | qbitleap-solo-miner/backend/permissionless_telemetry.py:142-167 | what a scan attached and then what still waits is what waited, sorted by the time found, equal times in the order they waited |
| BlockPolls.ScanGivesEvents | qbitleap-solo-miner/backend/permissionless_telemetry.py:148-167 | up to where a scan ended, each block that pays and is in no entry of the history gets an entry of its own in front, with its height and hash and the next waiting event, or an unnamed one once none waits; other entries below stay as they were |
| BlockPolls.EventsConserved | qbitleap-solo-miner/backend/permissionless_telemetry.py:142-170 | over any run every event ends attached, matched or waiting, and only once, exactly when no poll has an event waiting after its snapshot and the node failing past a block that pays and is in no entry of the history |
| BlockPolls.TearsExactly | qbitleap-solo-miner/backend/permissionless_telemetry.py:148-168 | such a poll is exactly one whose scan stops after it has attached an event |
| BlockPolls.EventAttachedTwice | qbitleap-solo-miner/backend/permissionless_telemetry.py:155-168 | two polls, the first losing the node after its first block, attach one event to two blocks |
| Telemetry.Reconcile | qbitleap-solo-miner/backend/permissionless_telemetry.py:60-84 | the loop with its position table gives the reconciled history |
| Telemetry.ScanHeights | qbitleap-solo-miner/backend/permissionless_telemetry.py:148-167 | the scanning loop over known heights gives the scan |
| Telemetry.Store.Snapshot | qbitleap-solo-miner/backend/permissionless_telemetry.py:226-245 | the loop over new events gives the history, the waiting events and the matches |
| Telemetry.Store.Poll | qbitleap-solo-miner/backend/permissionless_telemetry.py:278-283 | one poll leaves the state of the specification, with distinct heights |
| Router.Proxy | qbitleap-solo-miner/backend/router.py:35-48 | for every cut of a byte stream into chunks, the connection stays open exactly when every complete line of the whole rewrites, and then what was sent is the line-by-line rewrite of the whole and the buffer is its unterminated tail |
| RouterLines.LineByLine | qbitleap-solo-miner/backend/router.py:35-48 | lines with their newlines are rewritten in their order, each ended by a newline again, exactly when none of them raises, and what follows the last newline waits |
| Router.SentBefore | qbitleap-solo-miner/backend/router.py:64-76 | when a line raises, what was sent is the rewrite of the complete lines of the chunks before the one that completes the first line that does |
| Router.CutMatters | qbitleap-solo-miner/backend/router.py:35-48 | one stream cut in two ways: a line that rewrites is lost when the line after it, which raises, ends in the same chunk |
| Router.RewriteMinerMessages | qbitleap-solo-miner/backend/router.py:35-48 | one call raises exactly when a complete line of the buffer and the new bytes does; otherwise it rewrites them and keeps the rest |
| JobLifecycle.Server.SendJob | qbitleap-solo-miner/upstream/qbit-mining-bootstrap/lab/auxpow/auxpow_coordinator.py:1478-1525 | a job goes out under an id never sent before, with the target of the client's pending difficulty when that is there and not zero and of its current one otherwise, and the difficulty of that target is sent right before it; a clean one replaces the client's jobs; every id issued so far has had one notify, to its client, right after its difficulty |
| JobLifecycle.Server.Refresh | qbitleap-solo-miner/upstream/qbit-mining-bootstrap/lab/auxpow/auxpow_coordinator.py:1303-1387 | a refresh happens exactly when it is due and a template is there; then the current job is a clean one of that template at the fixed difficulty's target, every live job is of that template, no id sent before is live, only ready connections whose socket fails are gone, and every ready one left has a live job at its own difficulty |
| JobLifecycle.Server.Submit | qbitleap-solo-miner/upstream/qbit-mining-bootstrap/lab/auxpow/auxpow_coordinator.py:1709-1724 | a share is judged exactly when its job is live, of fresh work and active for that client, and then at the target under which that id was issued to it since the last refresh |
| JobLifecycle.JudgedAsAdvertised | qbitleap-solo-miner/upstream/qbit-mining-bootstrap/lab/auxpow/auxpow_coordinator.py:1478-1525 | every share judged in a run is of a job whose only notify went to the client that sent the share, right after the difficulty of the target the share was judged at |
| JobLifecycle.Server.Disconnect | qbitleap-solo-miner/upstream/qbit-mining-bootstrap/lab/auxpow/auxpow_coordinator.py:1586-1594 | a client's jobs go with it, and no other client's |
| JobLifecycle.Server.Retarget | qbitleap-solo-miner/upstream/qbit-mining-bootstrap/lab/auxpow/auxpow_coordinator.py:1080-1103 | a retarget that is not worth it, or was overtaken, changes nothing; one to the same difficulty only notes it; any other drops the client if its socket fails and sends the new difficulty alone or, in the clean mode with fresh work and a difficulty other than zero, a clean job of that work whose target is the new difficulty's, the difficulty of that target first |
| JobLifecycle.Server.Register | qbitleap-solo-miner/upstream/qbit-mining-bootstrap/lab/auxpow/auxpow_coordinator.py:1657-1673 | a client that has subscribed and authorized is sent the current job, unless its work is stale, at the target of its pending difficulty or, without one, its own |
| JobLifecycle.Server.Broadcast | qbitleap-solo-miner/upstream/qbit-mining-bootstrap/lab/auxpow/auxpow_coordinator.py:1468-1476 | every ready connection whose socket holds has a live job of the work, at the target of its pending difficulty or its own, clients that are not ready are sent nothing and keep what they have, and only ready ones whose socket fails are gone |
| JobLifecycle.ActiveDisjoint | qbitleap-solo-miner/upstream/qbit-mining-bootstrap/lab/auxpow/auxpow_coordinator.py:1517-1522 | no id is active for two clients |
| Vardiff.StepIsClosest | qbitleap-solo-miner/upstream/qbit-mining-bootstrap/lab/auxpow/vardiff.py:235-243 | a retarget ends at the reachable difficulty (in the lane and within the step factors) closest to the wanted one, and at it exactly when it is reachable |
| Vardiff.NextIsReachable | qbitleap-solo-miner/upstream/qbit-mining-bootstrap/lab/auxpow/vardiff.py:187-243 | the next difficulty is always in the lane and within the step factors of the clamped current one |
| Vardiff.SilentWindow | qbitleap-solo-miner/upstream/qbit-mining-bootstrap/lab/auxpow/vardiff.py:222-223 | a window without shares steps down by the whole factor, or to the minimum |
| Vardiff.ObservedExactly | qbitleap-solo-miner/upstream/qbit-mining-bootstrap/lab/auxpow/vardiff.py:91-105 | the observed difficulty times the elapsed time is the accepted work times the interval |
| Vardiff.NextExactly | qbitleap-solo-miner/upstream/qbit-mining-bootstrap/lab/auxpow/vardiff.py:187-243 | which windows have a next difficulty, what each argues for (the estimate given, the accepted work, the shares counted, or the largest step down), and that the answer is the closest to it that the lane and the step factors allow |
| Vardiff.SmoothExactly | qbitleap-solo-miner/upstream/qbit-mining-bootstrap/lab/auxpow/vardiff.py:108-122 | the estimate is the weighted mean of the observed difficulty and the one before, within the lane |
| Vardiff.EstimateConverges | qbitleap-solo-miner/upstream/qbit-mining-bootstrap/lab/auxpow/vardiff.py:108-122 | observing one in-lane difficulty, the estimate stays in the lane and its error shrinks by 1 - alpha every window |
| Vardiff.TargetRoundTrip | qbitleap-solo-miner/upstream/qbit-mining-bootstrap/lab/auxpow/auxpow_coordinator.py:242-248 | a difficulty d below diff1 sent as a target and read back lies in [d, d + d * d / (diff1 - d)) |
| Vardiff.TargetExactly | qbitleap-solo-miner/upstream/qbit-mining-bootstrap/lab/auxpow/auxpow_coordinator.py:242-248 | a difficulty's target is the largest whole number whose product with it is at most diff1, and at least one |
| Vardiff.BlocksAreShares | qbitleap-solo-miner/upstream/qbit-mining-bootstrap/lab/auxpow/auxpow_coordinator.py:1415-1423 | the effective target takes every hash good enough for a block exactly when the least advertised difficulty allows it, and is never above what that difficulty allows |

## Left out

- EvidenceFile.SummarizeFile: JSON text, the table of kinds, SHA-256, regular expressions and the text of `int()` are parameters; a hash is the bytes fed to it, and hashing in pieces is taken to be hashing the whole.
- EvidenceFile.SummarizeFile: that no NaN is in a key is shown to be enough, not needed: a single NaN key, or one that no later row meets, changes nothing. Which NaN an error message or a report prints is not told apart, as they print alike.
- EvidenceFile.SummarizeFile: how far a text-mode read decodes ahead of a line is a law on the reader (`EvidenceFile.Reads`), not a model of the interpreter's buffering.
- EvidenceMeaning.ReportSays: a kind without rows is absent from the model's counts and hashes, where the program prints a count of zero and the hash of nothing for it.
- EvidenceMeaning.RefusedFor: covers the refusals that the summary words itself; an error that Python raises inside an operation, such as a missing key, refuses the line too, and is not told apart there.
- ExportRanges.Export: sessions, snapshots and psql are outcomes only: what a part prints, whether it fails, how much of it was copied. An interrupt while parts are running is a session failure.
- ExportRanges.PartsEqualSerial: rows with equal keys, and several rows with a NULL key, which ORDER BY may give in any order, are compared as multisets.
- TrendBranch.AppendRows: git is a register of commits whose push is refused, accepted, or applied and reported failed; the deadline and back-off are the bound on attempts. A failure of any other git command raises, and only ends its writer.
- TrendBranch.ReturnedRowsRecorded: an identity holds no lane, so a row given with another lane than the first row of its record is that record, on the first one's lane.
- TrendRows.PromotionsDiffer: rows with fields of other types, which the writers never record, are not modelled.
- TextRows.AppendedRows: `str.splitlines` takes CR LF as one break and the model as two; the empty line between is no row either way. A row with a line break that `splitlines` knows and JSON leaves as it is cannot occur, as `json.dumps` escapes them.
- AuxPowWork.HeaderCommitsToSubmission: the transaction, witness and integer-serialization helpers are not part of this model. Nodes are 32-byte strings, and a coinbase of the template's size that differs from it only in the placeholder's place is taken to read back as itself.
- StratumCodec.BuildersAgree: `int(text, 16)` is modelled on hexadecimal digits only; the other spellings Python accepts do not occur in a notify.
- JobLifecycle.Server.Submit: with variable difficulty on, handler by handler; with it off jobs are shared and no set of active jobs is kept. Duplicate shares, whose memory is cleared at 50000 entries, and the judgement of the hash are not modelled.
- JobLifecycle.Server.SendJob: what is written to a socket that fails counts as sent, both messages of a job together; the client is dropped in the same handler. Clients are values under their connection number rather than objects shared by threads, so interleavings inside a handler are not modelled.
- Vardiff.NextIsReachable: reals stand for decimals, so rounding to a precision is not modelled, nor non-finite values. The one-shot gate `initial_convergence_ready` only chooses the flag that is a parameter here.
- Regression.EvaluateNumber: reals stand for floats. How rows are grouped into series, and how the measured spread is looked up, are left out: they only choose the history and the spread given.
- ModuleWalk.Walk.Scope: the masking of code, the regular expressions and what an attribute means are functions of the text; all that is asked of them is that an attribute is a `#` with its bracket after it and no delimiter between.
- ModuleWalk.ProvedCitations: paths are resolved, and a file that cannot be decoded is not modelled. Completeness is stated where no scope names two modules the same, which the Rust compiler refuses, and each target has one root file.
- CfgPredicate.Enabled: the split into tokens, and Python's recursion limit, which would raise on very deep nesting.
- Census.Close: which functions are the first helpers, and the census of call sites itself.
- BlockPolls.EventsConserved: the node answers for each height in one way within a poll, and a payout address that cannot be read counts as a node that cannot be reached; worker hash rates, share counts and the dashboard's fields are left out.
- Telemetry.Store.Poll: the history's entries are values, so the table of known heights holds heights rather than references to entries.
- Router.Proxy: the rewrite of one line is a parameter, as are the lines it raises on; the payout address does not change during a connection, and sockets are left out.
- Configuration checks, the dashboard, alerts, manifests and inventories, image-lane orchestration and the readiness probes: they would add easy members only.
- `production_tokens`, whose scan for the end of an item assumes its text is balanced in a particular way.
