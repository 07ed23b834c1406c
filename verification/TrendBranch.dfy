/** The `ci-evidence` branch under concurrent writers: every writer fetches, commits on top of what
    it fetched and pushes without force; a push may be rejected, lost, or land unacknowledged. */
module TrendBranch {
  import opened Results
  import opened TrendRows
  import opened TrendAttempt

  /** A commit is its parent and its files, and a stamp for its message, author and times; equal
      ones are the same commit, as in git. */
  datatype Tip = NoBranch | Commit(parent: Tip, files: Content, stamp: nat)

  function Files(t: Tip): Content {
    if t.NoBranch? then map[] else t.files
  }

  /** A push without force is accepted when what the remote has is an ancestor of the commit. */
  predicate IsAncestor(a: Tip, b: Tip) {
    a == b || (b.Commit? && IsAncestor(a, b.parent))
  }

  function Depth(t: Tip): nat {
    if t.NoBranch? then 0 else 1 + Depth(t.parent)
  }

  datatype Phase = Ready | Holding(commit: Tip) | Returned | Raised

  /** A writer in `append_rows`: its batch, the attempts it has left, and where it is. */
  datatype Writer = Writer(batch: seq<Row>, left: nat, phase: Phase)

  datatype System = System(remote: Tip, writers: seq<Writer>)

  function CommitOf(s: Setup, tip: Tip, batch: seq<Row>, stamp: nat): Tip {
    Commit(tip, Committed(s, Files(tip), batch, tip.NoBranch?), stamp)
  }

  // ----- steps

  /** The fetch and the commit on top of it, or the return when nothing is left to add. */
  ghost predicate Fetches(s: Setup, tip: Tip, w: Writer, w': Writer) {
    && w.phase.Ready? && w.left > 0
    && if Additions(s, Files(tip), w.batch) == [] then w' == w.(phase := Returned)
       else exists stamp :: w' == w.(phase := Holding(CommitOf(s, tip, w.batch, stamp)))
  }

  /** The end of an attempt that was not acknowledged. */
  function NotAccepted(w: Writer): Writer
    requires w.left > 0
  {
    w.(left := w.left - 1, phase := if w.left == 1 then Raised else Ready)
  }

  datatype Event = Fetch | Pushed | PushedUnheard | NotPushed | GivesUp

  /** One writer's step `e`, from `remote` to `remote'`. */
  ghost predicate WriterStep(s: Setup, e: Event, remote: Tip, w: Writer, remote': Tip, w': Writer) {
    match e
    case Fetch => remote' == remote && Fetches(s, remote, w, w')
    case Pushed =>
      && w.phase.Holding? && IsAncestor(remote, w.phase.commit)
      && remote' == w.phase.commit && w' == w.(phase := Returned)
    case PushedUnheard =>
      && w.phase.Holding? && w.left > 0 && IsAncestor(remote, w.phase.commit)
      && remote' == w.phase.commit && w' == NotAccepted(w)
    case NotPushed => w.phase.Holding? && w.left > 0 && remote' == remote && w' == NotAccepted(w)
    case GivesUp => (w.phase.Ready? || w.phase.Holding?) && remote' == remote && w' == w.(phase := Raised)
  }

  ghost predicate StepBy(s: Setup, sys: System, sys': System, i: nat, e: Event) {
    && i < |sys.writers| == |sys'.writers|
    && WriterStep(s, e, sys.remote, sys.writers[i], sys'.remote, sys'.writers[i])
    && forall j :: 0 <= j < |sys.writers| && j != i ==> sys'.writers[j] == sys.writers[j]
  }

  ghost predicate Step(s: Setup, sys: System, sys': System) {
    exists i: nat, e :: StepBy(s, sys, sys', i, e)
  }

  ghost predicate StepAt(s: Setup, run: seq<System>, k: int) {
    0 <= k < |run| - 1 && Step(s, run[k], run[k + 1])
  }

  ghost predicate IsRun(s: Setup, run: seq<System>) {
    run != [] && forall k :: 0 <= k < |run| - 1 ==> StepAt(s, run, k)
  }

  // ----- the invariant

  /** A batch as `append_rows` leaves it: one row an identity, and no row that is the promotion
      another row of it would leave. */
  ghost predicate Settled(batch: seq<Row>) {
    && DistinctBatch(batch)
    && forall i, j :: 0 <= i < |batch| && 0 <= j < |batch| && HasAsset(batch[i]) && batch[i].lane == batch[j].lane
         ==> Id(batch[j]) != Id(PromotionOf(batch[i]))
  }

  ghost predicate BatchOn(s: Setup, content: Content, batch: seq<Row>) {
    forall i :: 0 <= i < |batch| ==> OnLane(s, content, batch[i].lane, Id(batch[i]))
  }

  ghost predicate WriterOk(s: Setup, remote: Tip, w: Writer) {
    && Settled(w.batch)
    && (w.phase.Holding? ==>
         && w.left > 0 && w.phase.commit.Commit? && IsAncestor(w.phase.commit.parent, remote)
         && w.phase.commit == CommitOf(s, w.phase.commit.parent, w.batch, w.phase.commit.stamp))
    && (w.phase.Returned? ==> BatchOn(s, Files(remote), w.batch))
  }

  ghost predicate Safe(s: Setup, sys: System) {
    && NoTwice(s, Files(sys.remote))
    && forall i :: 0 <= i < |sys.writers| ==> WriterOk(s, sys.remote, sys.writers[i])
  }

  // ----- ancestry

  lemma {:induction false} AncestorDepth(a: Tip, b: Tip)
    requires IsAncestor(a, b)
    ensures Depth(a) <= Depth(b) && (Depth(a) == Depth(b) ==> a == b)
  {
    if a != b {
      AncestorDepth(a, b.parent);
    }
  }

  lemma {:induction false} AncestorTransitive(a: Tip, b: Tip, c: Tip)
    requires IsAncestor(a, b) && IsAncestor(b, c)
    ensures IsAncestor(a, c)
  {
    if b != c {
      AncestorTransitive(a, b, c.parent);
    }
  }

  /** A push lands only on the tip it was built on, or finds itself already there. */
  lemma LandsOnItsParent(remote: Tip, commit: Tip)
    requires commit.Commit? && IsAncestor(commit.parent, remote) && IsAncestor(remote, commit)
    ensures remote == commit || remote == commit.parent
  {
    if remote != commit {
      AncestorDepth(commit.parent, remote);
      AncestorDepth(remote, commit.parent);
    }
  }

  /** So a push that is refused for not being a fast-forward means some other writer's commit
      landed since the fetch. */
  lemma RefusalMeansProgress(remote: Tip, commit: Tip)
    requires commit.Commit? && IsAncestor(commit.parent, remote) && !IsAncestor(remote, commit)
    ensures remote != commit.parent && Depth(commit.parent) < Depth(remote)
  {
    AncestorDepth(commit.parent, remote);
  }

  // ----- growth

  /** Every file of `before` is, in `after`, itself and perhaps more. */
  ghost predicate Grew(before: Content, after: Content) {
    forall p :: p in before ==> p in after && before[p] <= after[p]
  }

  lemma CommitGrows(s: Setup, tip: Tip, batch: seq<Row>, stamp: nat)
    requires Sound(s)
    ensures Grew(Files(tip), Files(CommitOf(s, tip, batch, stamp)))
    ensures forall lane, id :: OnLane(s, Files(tip), lane, id) ==>
            OnLane(s, Files(CommitOf(s, tip, batch, stamp)), lane, id)
  {
    var content, newBranch := Files(tip), tip.NoBranch?;
    forall p | p in content
      ensures p in Committed(s, content, batch, newBranch) && content[p] <= Committed(s, content, batch, newBranch)[p]
    {
      FilesGrow(s, content, batch, newBranch, p);
    }
    forall lane, id | OnLane(s, content, lane, id)
      ensures OnLane(s, Committed(s, content, batch, newBranch), lane, id)
    {
      StaysOnLane(s, content, batch, newBranch, lane, id);
    }
  }

  /** What a landed commit brings: it grows every file, keeps identities single, holds its batch. */
  lemma Landed(s: Setup, tip: Tip, batch: seq<Row>, stamp: nat)
    requires Sound(s) && Settled(batch) && NoTwice(s, Files(tip))
    ensures NoTwice(s, Files(CommitOf(s, tip, batch, stamp)))
    ensures BatchOn(s, Files(CommitOf(s, tip, batch, stamp)), batch)
  {
    var content, newBranch := Files(tip), tip.NoBranch?;
    assert !Clashes(s, content, batch);
    DistinctExactly(s, content, batch);
    NoTwiceExactly(s, content, batch, newBranch);
    forall i | 0 <= i < |batch|
      ensures OnLane(s, Committed(s, content, batch, newBranch), batch[i].lane, Id(batch[i]))
    {
      BatchThere(s, content, batch, newBranch, i);
    }
  }

  /** What every step does to the branch, and keeps of the invariant. */
  ghost predicate Advanced(s: Setup, before: Tip, after: Tip) {
    && IsAncestor(before, after)
    && Grew(Files(before), Files(after))
    && forall lane, id :: OnLane(s, Files(before), lane, id) ==> OnLane(s, Files(after), lane, id)
  }

  lemma WriterStepSafe(s: Setup, e: Event, remote: Tip, w: Writer, remote': Tip, w': Writer)
    requires Sound(s) && NoTwice(s, Files(remote)) && WriterOk(s, remote, w) && WriterStep(s, e, remote, w, remote', w')
    ensures NoTwice(s, Files(remote')) && WriterOk(s, remote', w') && Advanced(s, remote, remote')
  {
    match e {
      case Fetch =>
        if Additions(s, Files(remote), w.batch) == [] {
          forall i | 0 <= i < |w.batch|
            ensures OnLane(s, Files(remote), w.batch[i].lane, Id(w.batch[i]))
          {
            NothingToAdd(s, Files(remote), w.batch, i);
          }
        }
      case Pushed => PushLands(s, remote, w);
      case PushedUnheard => PushLands(s, remote, w);
      case NotPushed =>
      case GivesUp =>
    }
  }

  lemma PushLands(s: Setup, remote: Tip, w: Writer)
    requires Sound(s) && NoTwice(s, Files(remote)) && WriterOk(s, remote, w)
    requires w.phase.Holding? && IsAncestor(remote, w.phase.commit)
    ensures NoTwice(s, Files(w.phase.commit)) && BatchOn(s, Files(w.phase.commit), w.batch)
    ensures Advanced(s, remote, w.phase.commit)
  {
    var commit := w.phase.commit;
    LandsOnItsParent(remote, commit);
    if remote == commit {
      forall i | 0 <= i < |w.batch|
        ensures OnLane(s, Files(commit), w.batch[i].lane, Id(w.batch[i]))
      {
        BatchThere(s, Files(commit.parent), w.batch, commit.parent.NoBranch?, i);
      }
    } else {
      Landed(s, remote, w.batch, commit.stamp);
      CommitGrows(s, remote, w.batch, commit.stamp);
    }
  }

  lemma OthersStaySafe(s: Setup, remote: Tip, remote': Tip, w: Writer)
    requires WriterOk(s, remote, w) && Advanced(s, remote, remote')
    ensures WriterOk(s, remote', w)
  {
    if w.phase.Holding? {
      AncestorTransitive(w.phase.commit.parent, remote, remote');
    }
  }

  lemma StepSafe(s: Setup, sys: System, sys': System)
    requires Sound(s) && Safe(s, sys) && Step(s, sys, sys')
    ensures Safe(s, sys') && Advanced(s, sys.remote, sys'.remote)
    ensures |sys'.writers| == |sys.writers|
    ensures forall i :: 0 <= i < |sys.writers| ==>
      && sys'.writers[i].batch == sys.writers[i].batch
      && (sys.writers[i].phase.Returned? ==> sys'.writers[i].phase.Returned?)
  {
    var i: nat, e :| StepBy(s, sys, sys', i, e);
    assert WriterOk(s, sys.remote, sys.writers[i]);
    WriterStepSafe(s, e, sys.remote, sys.writers[i], sys'.remote, sys'.writers[i]);
    forall j | 0 <= j < |sys.writers|
      ensures WriterOk(s, sys'.remote, sys'.writers[j])
    {
      if j != i {
        assert WriterOk(s, sys.remote, sys.writers[j]);
        OthersStaySafe(s, sys.remote, sys'.remote, sys.writers[j]);
      }
    }
  }

  /** Writers start with settled batches, none of them part-way, on any branch with no identity
      twice in a lane (or no branch). */
  ghost predicate Starts(s: Setup, sys: System) {
    && NoTwice(s, Files(sys.remote))
    && forall i :: 0 <= i < |sys.writers| ==> Settled(sys.writers[i].batch) && sys.writers[i].phase.Ready?
  }

  /** Over every interleaving and every push outcome: no identity is ever twice in a lane, each
      trend file only grows at its end, and between any two moments the branch only advances. */
  lemma {:induction false} RunsAreSafe(s: Setup, run: seq<System>, k: nat)
    requires Sound(s) && IsRun(s, run) && Starts(s, run[0]) && k < |run|
    ensures Safe(s, run[k]) && Advanced(s, run[0].remote, run[k].remote)
    decreases k
  {
    if k > 0 {
      RunsAreSafe(s, run, k - 1);
      assert StepAt(s, run, k - 1);
      StepSafe(s, run[k - 1], run[k]);
      AdvancedTransitive(s, run[0].remote, run[k - 1].remote, run[k].remote);
    }
  }

  lemma AdvancedTransitive(s: Setup, a: Tip, b: Tip, c: Tip)
    requires Advanced(s, a, b) && Advanced(s, b, c)
    ensures Advanced(s, a, c)
  {
    AncestorTransitive(a, b, c);
    forall p | p in Files(a)
      ensures p in Files(c) && Files(a)[p] <= Files(c)[p]
    {
      assert Files(a)[p] <= Files(b)[p] <= Files(c)[p];
    }
  }

  lemma RunStep(s: Setup, run: seq<System>, k: nat)
    requires Sound(s) && IsRun(s, run) && Starts(s, run[0]) && k + 1 < |run|
    ensures Advanced(s, run[k].remote, run[k + 1].remote)
  {
    RunsAreSafe(s, run, k);
    assert StepAt(s, run, k);
    StepSafe(s, run[k], run[k + 1]);
  }

  lemma {:induction false} RunAdvances(s: Setup, run: seq<System>, j: nat, k: nat)
    requires Sound(s) && IsRun(s, run) && Starts(s, run[0]) && j <= k < |run|
    ensures Advanced(s, run[j].remote, run[k].remote)
    decreases k - j
  {
    if j < k {
      RunAdvances(s, run, j, k - 1);
      RunStep(s, run, k - 1);
      AdvancedTransitive(s, run[j].remote, run[k - 1].remote, run[k].remote);
    }
  }

  /** A writer that has returned stays so, with its batch. */
  ghost predicate StillReturned(sys: System, batch: seq<Row>, i: nat) {
    i < |sys.writers| && sys.writers[i].batch == batch && sys.writers[i].phase.Returned?
  }

  lemma StaysReturned(s: Setup, run: seq<System>, batch: seq<Row>, k: nat, i: nat)
    requires IsRun(s, run) && k + 1 < |run| && StillReturned(run[k], batch, i)
    ensures StillReturned(run[k + 1], batch, i)
  {
    assert StepAt(s, run, k);
    var j: nat, e :| StepBy(s, run[k], run[k + 1], j, e);
    assert j != i;
  }

  lemma {:induction false} ReturnedStays(s: Setup, run: seq<System>, batch: seq<Row>, j: nat, k: nat, i: nat)
    requires IsRun(s, run) && j <= k < |run| && StillReturned(run[j], batch, i)
    ensures StillReturned(run[k], batch, i)
    decreases k - j
  {
    if j < k {
      ReturnedStays(s, run, batch, j, k - 1, i);
      StaysReturned(s, run, batch, k - 1, i);
    }
  }

  /** A writer that returns normally has every identity of its batch on the branch, from then on. */
  lemma ReturnedMeansRecorded(s: Setup, run: seq<System>, j: nat, k: nat, i: nat)
    requires Sound(s) && IsRun(s, run) && Starts(s, run[0]) && j <= k < |run|
    requires i < |run[j].writers| && run[j].writers[i].phase.Returned?
    ensures BatchOn(s, Files(run[k].remote), run[j].writers[i].batch)
  {
    ReturnedStays(s, run, run[j].writers[i].batch, j, k, i);
    RunsAreSafe(s, run, k);
    assert WriterOk(s, run[k].remote, run[k].writers[i]);
  }

  /** And so every row it was given has one that agrees with it on the lane of the first such row given. */
  lemma ReturnedRowsRecorded(s: Setup, run: seq<System>, j: nat, k: nat, w: nat, rows: seq<Row>, i: nat)
    requires Sound(s) && IsRun(s, run) && Starts(s, run[0]) && j <= k < |run|
    requires w < |run[j].writers| && run[j].writers[w].phase.Returned? && run[j].writers[w].batch == Unique(rows)
    requires i < |rows|
    ensures exists first: nat ::
              && first <= i && IsFirst(rows, first) && Agree(rows[first], rows[i])
              && Holds(s, Files(run[k].remote), rows[first].lane, rows[first])
  {
    ReturnedMeansRecorded(s, run, j, k, w);
    var first := SomeFirst(rows, i);
    var x := FirstInBatch(rows, first);
    HoldsExactly(s, Files(run[k].remote), rows[first].lane, rows[first]);
  }

  // ----- attempts

  /** A writer that may still fetch or push has an attempt left. */
  predicate MayTry(w: Writer) {
    w.phase.Ready? || w.phase.Holding? ==> w.left > 0
  }

  /** Each unacknowledged attempt takes one of those left, and the last one raises. */
  lemma {:induction false} AttemptsRunOut(s: Setup, run: seq<System>, j: nat, k: nat, i: nat)
    requires IsRun(s, run) && j <= k < |run| && i < |run[j].writers| && MayTry(run[j].writers[i])
    ensures i < |run[k].writers| && MayTry(run[k].writers[i])
    ensures run[k].writers[i].left <= run[j].writers[i].left
    ensures run[j].writers[i].phase.Holding? && run[k].writers[i].phase.Ready? ==>
              run[k].writers[i].left < run[j].writers[i].left
    decreases k - j
  {
    if j < k {
      AttemptsRunOut(s, run, j, k - 1, i);
      assert StepAt(s, run, k - 1);
      var x: nat, e :| StepBy(s, run[k - 1], run[k], x, e);
    }
  }

  lemma NotItsPromotion(a: Row, b: Row)
    requires !b.kind.Promotion?
    ensures Id(b) != Id(PromotionOf(a))
  {
  }

  /** What `append_rows` keeps of the rows it is given is settled whenever they hold no promotion. */
  lemma UniqueIsSettled(rows: seq<Row>)
    requires forall i :: 0 <= i < |rows| ==> !rows[i].kind.Promotion?
    ensures Settled(Unique(rows))
    ensures forall i :: 0 <= i < |rows| ==> Listed(Unique(rows), Id(rows[i]))
  {
    UniqueDistinct(rows);
    var batch := Unique(rows);
    forall i, j | 0 <= i < |batch| && 0 <= j < |batch|
      ensures Id(batch[j]) != Id(PromotionOf(batch[i]))
    {
      var k := UniqueFrom(rows, j);
      NotItsPromotion(batch[i], batch[j]);
    }
  }

  /** A single row, such as the promotion the `cite` action appends by itself, is settled too. */
  lemma OneRowIsSettled(row: Row)
    ensures Settled(Unique([row]))
  {
    assert [row][..0] == [];
    assert Unique([]) == [];
    assert Unique([row]) == [row];
  }

  // ----- the retry loop

  datatype Recorded = Recorded(added: nat, skipped: nat, attempts: nat)

  /** An attempt that neither finds every row recorded nor has its push accepted. */
  ghost predicate Unconfirmed(s: Setup, batch: seq<Row>, tip: Tip, pushed: bool) {
    Additions(s, Files(tip), batch) != [] && !pushed
  }

  lemma AttemptReturns(s: Setup, w: Writer, tip: Tip)
    requires w.phase.Ready? && w.left > 0 && Additions(s, Files(tip), w.batch) == []
    ensures WriterStep(s, Fetch, tip, w, tip, w.(phase := Returned))
  {
  }

  lemma AttemptFetches(s: Setup, w: Writer, tip: Tip, content: Content)
    requires w.phase.Ready? && w.left > 0 && Additions(s, Files(tip), w.batch) != []
    requires content == Committed(s, Files(tip), w.batch, tip.NoBranch?)
    ensures WriterStep(s, Fetch, tip, w, tip, w.(phase := Holding(Commit(tip, content, 0))))
  {
    assert Commit(tip, content, 0) == CommitOf(s, tip, w.batch, 0);
  }

  lemma AttemptRefused(s: Setup, w: Writer, tip: Tip)
    requires w.phase.Holding? && w.left > 0
    ensures WriterStep(s, NotPushed, tip, w, tip, NotAccepted(w))
  {
  }

  /** `append_rows`, given the tip each attempt fetches and whether its push is accepted; None is
      the error raised when no attempt could be confirmed. The writer's steps are those above. */
  method AppendRows(s: Setup, rows: seq<Row>, attempts: nat, fetched: nat -> Tip, accepted: nat -> bool)
      returns (r: Option<Recorded>)
    ensures r.None? <==> forall a: nat :: 1 <= a <= attempts ==> Unconfirmed(s, Unique(rows), fetched(a), accepted(a))
    ensures r.Some? ==>
      var a, batch := r.value.attempts, Unique(rows);
      && 1 <= a <= attempts && !Unconfirmed(s, batch, fetched(a), accepted(a))
      && (forall b: nat :: 1 <= b < a ==> Unconfirmed(s, batch, fetched(b), accepted(b)))
      && r.value.added == |Additions(s, Files(fetched(a)), batch)|
      && r.value.skipped == |SkippedRows(s, Files(fetched(a)), batch)|
  {
    var batch := Unique(rows);
    ghost var w := Writer(batch, attempts, Ready);
    for attempt := 1 to attempts + 1
      invariant forall a: nat :: 1 <= a < attempt ==> Unconfirmed(s, batch, fetched(a), accepted(a))
      invariant w == Writer(batch, attempts + 1 - attempt, if attempt == attempts + 1 && attempts > 0 then Raised
                            else Ready)
    {
      var tip := fetched(attempt);
      var changes, added, skipped := Attempt(s, Files(tip), tip.NoBranch?, batch);
      if changes.None? {
        AttemptReturns(s, w, tip);
        return Some(Recorded(0, skipped, attempt));
      }
      var commit := Commit(tip, Files(tip) + changes.value, 0);
      ghost var holding := w.(phase := Holding(commit));
      AttemptFetches(s, w, tip, Files(tip) + changes.value);
      if accepted(attempt) {
        return Some(Recorded(added, skipped, attempt));
      }
      AttemptRefused(s, holding, tip);
      w := NotAccepted(holding);
    }
    r := None;
  }
}
