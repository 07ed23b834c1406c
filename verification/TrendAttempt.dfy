/** One attempt of `append_rows` (scripts/prism_load_trend.py): what it adds to the branch content
    it fetched, and when that leaves no identity twice in a lane. */
module TrendAttempt {
  import opened Results
  import opened TextRows
  import opened TrendRows

  datatype Path = Trend(lane: string, file: string) | Readme

  type Content = map<Path, string>

  /** How rows are rendered, the branch's README, and the order `git ls-tree` lists a lane's files in. */
  datatype Setup = Setup(format: Format<Row>, readme: string, list: (set<Path>, string) -> seq<Path>)

  /** Every trend file of the lane is listed, and nothing else. */
  ghost predicate Sound(s: Setup) {
    && RoundTrips(s.format)
    && forall keys, lane, p :: p in s.list(keys, lane) <==> p in keys && p.Trend? && p.lane == lane
  }

  function RowsIn(s: Setup, content: Content, p: Path): seq<Row> {
    if p in content then RowsOf(s.format, content[p]) else []
  }

  // ----- what a lane holds

  /** Later rows win, as in a dict built from them. */
  function ById(rows: seq<Row>): map<Identity, Row> {
    if rows == [] then map[]
    else ById(rows[..|rows| - 1])[Id(rows[|rows| - 1]) := rows[|rows| - 1]]
  }

  lemma {:induction false} ByIdHolds(rows: seq<Row>, i: nat)
    requires i < |rows|
    ensures Id(rows[i]) in ById(rows)
  {
    if i < |rows| - 1 {
      ByIdHolds(rows[..|rows| - 1], i);
    }
  }

  lemma {:induction false} ByIdFrom(rows: seq<Row>, id: Identity) returns (i: nat)
    requires id in ById(rows)
    ensures i < |rows| && ById(rows)[id] == rows[i] && Id(rows[i]) == id
  {
    var n := |rows| - 1;
    if id == Id(rows[n]) {
      i := n;
    } else {
      i := ByIdFrom(rows[..n], id);
    }
  }

  function ListedRows(s: Setup, content: Content, paths: seq<Path>): seq<Row> {
    if paths == [] then [] else ListedRows(s, content, paths[..|paths| - 1]) + RowsIn(s, content, paths[|paths| - 1])
  }

  /** `lanes[lane]` */
  function Seen(s: Setup, content: Content, lane: string): map<Identity, Row> {
    ById(ListedRows(s, content, s.list(content.Keys, lane)))
  }

  lemma {:induction false} ListedAll(s: Setup, content: Content, paths: seq<Path>, p: Path)
    requires p in paths
    ensures forall r :: r in RowsIn(s, content, p) ==> r in ListedRows(s, content, paths)
  {
    var n := |paths| - 1;
    if p != paths[n] {
      assert paths == paths[..n] + [paths[n]];
      ListedAll(s, content, paths[..n], p);
    }
  }

  lemma {:induction false} ListedOnly(s: Setup, content: Content, paths: seq<Path>, r: Row) returns (p: Path)
    requires r in ListedRows(s, content, paths)
    ensures p in paths && r in RowsIn(s, content, p)
  {
    var n := |paths| - 1;
    if r in RowsIn(s, content, paths[n]) {
      p := paths[n];
    } else {
      p := ListedOnly(s, content, paths[..n], r);
    }
  }

  /** An identity is seen exactly when some file of the lane holds a row with it. */
  lemma SeenExactly(s: Setup, content: Content, lane: string, id: Identity)
    requires Sound(s)
    ensures id in Seen(s, content, lane) <==> OnLane(s, content, lane, id)
  {
    var paths := s.list(content.Keys, lane);
    var rows := ListedRows(s, content, paths);
    if id in Seen(s, content, lane) {
      var k := ByIdFrom(rows, id);
      var r := rows[k];
      var p := ListedOnly(s, content, paths, r);
      var i :| 0 <= i < |RowsIn(s, content, p)| && RowsIn(s, content, p)[i] == r;
      assert HasAt(s, content, p, i, id);
    }
    if OnLane(s, content, lane, id) {
      var p: Path, i :| p.Trend? && p.lane == lane && HasAt(s, content, p, i, id);
      assert p in content;
      ListedAll(s, content, paths, p);
      var r := RowsIn(s, content, p)[i];
      assert r in rows;
      var j :| 0 <= j < |rows| && rows[j] == r;
      ByIdHolds(rows, j);
    }
  }

  ghost predicate HasAt(s: Setup, content: Content, p: Path, i: int, id: Identity) {
    0 <= i < |RowsIn(s, content, p)| && Id(RowsIn(s, content, p)[i]) == id
  }

  ghost predicate OnLane(s: Setup, content: Content, lane: string, id: Identity) {
    exists p: Path, i :: p.Trend? && p.lane == lane && HasAt(s, content, p, i, id)
  }

  /** No identity is on two rows of one lane. */
  ghost predicate NoTwice(s: Setup, content: Content) {
    forall p: Path, i, q: Path, j, id ::
      p.Trend? && q.Trend? && p.lane == q.lane && HasAt(s, content, p, i, id) && HasAt(s, content, q, j, id)
      ==> p == q && i == j
  }

  // ----- the attempt

  datatype Addition = Addition(path: Path, row: Row)

  function PathOf(r: Row): Path {
    Trend(r.lane, r.month)
  }

  /** The row a row of the batch adds, given what its lane holds: itself, or a promotion the
      recorded row lacks. */
  function AddedRow(seen: map<Identity, Row>, r: Row): Option<Row> {
    if Id(r) !in seen then Some(r)
    else
      match Recovered(r, seen[Id(r)])
      case None => None
      case Some(promotion) => if Id(promotion) in seen then None else Some(promotion)
  }

  function AddedBy(s: Setup, content: Content, r: Row): (adds: seq<Addition>)
    ensures |adds| <= 1
  {
    match AddedRow(Seen(s, content, r.lane), r)
    case None => []
    case Some(row) => [Addition(PathOf(r), row)]
  }

  function Additions(s: Setup, content: Content, batch: seq<Row>): seq<Addition> {
    if batch == [] then []
    else Additions(s, content, batch[..|batch| - 1]) + AddedBy(s, content, batch[|batch| - 1])
  }

  /** The rows added to one file, in order. */
  function AddedTo(adds: seq<Addition>, p: Path): seq<Row> {
    if adds == [] then []
    else
      AddedTo(adds[..|adds| - 1], p) + if adds[|adds| - 1].path == p then [adds[|adds| - 1].row] else []
  }

  function PathsOf(adds: seq<Addition>): set<Path> {
    set a | a in adds :: a.path
  }

  function TextAt(content: Content, p: Path): string {
    if p in content then content[p] else ""
  }

  /** The additions, grouped by file. */
  function GroupOf(adds: seq<Addition>): map<Path, seq<Row>> {
    map p | p in PathsOf(adds) :: AddedTo(adds, p)
  }

  /** The files the attempt commits: each file added to, and the README of a new branch. */
  function Changes(s: Setup, content: Content, group: map<Path, seq<Row>>, newBranch: bool): Content {
    if newBranch then AppendedFiles(s, content, group)[Readme := s.readme] else AppendedFiles(s, content, group)
  }

  function AppendedFiles(s: Setup, content: Content, group: map<Path, seq<Row>>): Content {
    map p | p in group :: Appended(s.format, TextAt(content, p), group[p])
  }

  function Committed(s: Setup, content: Content, batch: seq<Row>, newBranch: bool): Content {
    content + Changes(s, content, GroupOf(Additions(s, content, batch)), newBranch)
  }

  // ----- what a commit changes

  lemma {:induction false} PathsAreTrend(s: Setup, content: Content, batch: seq<Row>)
    ensures forall a :: a in Additions(s, content, batch) ==> a.path == PathOf(a.row)
  {
    if batch != [] {
      PathsAreTrend(s, content, batch[..|batch| - 1]);
    }
  }

  lemma {:induction false} NothingElsewhere(adds: seq<Addition>, p: Path)
    requires p !in PathsOf(adds)
    ensures AddedTo(adds, p) == []
  {
    if adds != [] {
      assert adds[|adds| - 1] in adds;
      assert PathsOf(adds[..|adds| - 1]) <= PathsOf(adds);
      NothingElsewhere(adds[..|adds| - 1], p);
    }
  }

  /** Every file keeps its text as a prefix, and a trend file gains exactly its additions. */
  lemma FilesGrow(s: Setup, content: Content, batch: seq<Row>, newBranch: bool, p: Path)
    requires Sound(s) && (newBranch ==> content == map[])
    ensures var now := Committed(s, content, batch, newBranch);
            && (p in content ==> p in now && content[p] <= now[p])
            && (p.Trend? ==> RowsIn(s, now, p) == RowsIn(s, content, p) + AddedTo(Additions(s, content, batch), p))
  {
    var adds := Additions(s, content, batch);
    PathsAreTrend(s, content, batch);
    AppendedRows(s.format, TextAt(content, p), AddedTo(adds, p));
    EmptyText(s);
    if p !in PathsOf(adds) {
      NothingElsewhere(adds, p);
    }
  }

  lemma EmptyText(s: Setup)
    requires Sound(s)
    ensures RowsOf(s.format, "") == []
  {
  }

  // ----- distinct identities

  /** The identities a sequence of additions brings are pairwise distinct within each lane. */
  ghost predicate DistinctAdds(adds: seq<Addition>) {
    forall i, j :: 0 <= i < j < |adds| && adds[i].row.lane == adds[j].row.lane ==> Id(adds[i].row) != Id(adds[j].row)
  }

  /** Where the k-th row added to `p` stands among all additions. */
  lemma {:induction false} AddedFrom(adds: seq<Addition>, p: Path, k: nat) returns (i: nat)
    requires k < |AddedTo(adds, p)|
    ensures i < |adds| && adds[i] == Addition(p, AddedTo(adds, p)[k])
    ensures |AddedTo(adds[..i], p)| == k
  {
    var n := |adds| - 1;
    if k == |AddedTo(adds[..n], p)| {
      i := n;
    } else {
      i := AddedFrom(adds[..n], p, k);
      assert adds[..n][..i] == adds[..i];
    }
  }

  lemma {:induction false} AddedAt(adds: seq<Addition>, i: nat)
    requires i < |adds|
    ensures var k := |AddedTo(adds[..i], adds[i].path)|;
            k < |AddedTo(adds, adds[i].path)| && AddedTo(adds, adds[i].path)[k] == adds[i].row
  {
    var n := |adds| - 1;
    if i < n {
      AddedAt(adds[..n], i);
      assert adds[..n][..i] == adds[..i];
    }
  }

  /** No identity of a lane is added that some file of the lane already holds. */
  ghost predicate FreshAdds(s: Setup, content: Content, adds: seq<Addition>) {
    forall a :: a in adds ==> !OnLane(s, content, a.row.lane, Id(a.row))
  }

  lemma {:induction false} AdditionsFresh(s: Setup, content: Content, batch: seq<Row>)
    requires Sound(s)
    ensures FreshAdds(s, content, Additions(s, content, batch))
  {
    if batch != [] {
      var n := |batch| - 1;
      AdditionsFresh(s, content, batch[..n]);
      forall a | a in AddedBy(s, content, batch[n])
        ensures !OnLane(s, content, a.row.lane, Id(a.row))
      {
        SeenExactly(s, content, a.row.lane, Id(a.row));
      }
    }
  }

  /** A commit leaves no identity twice in a lane exactly when its additions bring none twice. */
  lemma NoTwiceExactly(s: Setup, content: Content, batch: seq<Row>, newBranch: bool)
    requires Sound(s) && NoTwice(s, content) && (newBranch ==> content == map[])
    ensures NoTwice(s, Committed(s, content, batch, newBranch)) <==> DistinctAdds(Additions(s, content, batch))
  {
    var adds, now := Additions(s, content, batch), Committed(s, content, batch, newBranch);
    if DistinctAdds(adds) {
      DistinctKeepsSingle(s, content, batch, newBranch);
    }
    if NoTwice(s, now) {
      forall i, j | 0 <= i < j < |adds| && adds[i].row.lane == adds[j].row.lane
        ensures Id(adds[i].row) != Id(adds[j].row)
      {
        SingleMeansDistinct(s, content, batch, newBranch, i, j);
      }
    }
  }

  lemma DistinctKeepsSingle(s: Setup, content: Content, batch: seq<Row>, newBranch: bool)
    requires Sound(s) && NoTwice(s, content) && (newBranch ==> content == map[])
    requires DistinctAdds(Additions(s, content, batch))
    ensures NoTwice(s, Committed(s, content, batch, newBranch))
  {
    var adds, now := Additions(s, content, batch), Committed(s, content, batch, newBranch);
    PathsAreTrend(s, content, batch);
    AdditionsFresh(s, content, batch);
    forall p: Path, i, q: Path, j, id |
      p.Trend? && q.Trend? && p.lane == q.lane && HasAt(s, now, p, i, id) && HasAt(s, now, q, j, id)
      ensures p == q && i == j
    {
      FilesGrow(s, content, batch, newBranch, p);
      FilesGrow(s, content, batch, newBranch, q);
      Apart(s, content, adds, p, i, q, j, id);
    }
  }

  lemma SingleMeansDistinct(s: Setup, content: Content, batch: seq<Row>, newBranch: bool, i: nat, j: nat)
    requires Sound(s) && (newBranch ==> content == map[])
    requires i < j < |Additions(s, content, batch)|
    ensures NoTwice(s, Committed(s, content, batch, newBranch))
            && Additions(s, content, batch)[i].row.lane == Additions(s, content, batch)[j].row.lane ==>
              Id(Additions(s, content, batch)[i].row) != Id(Additions(s, content, batch)[j].row)
  {
    var adds := Additions(s, content, batch);
    var x := PlaceOf(s, content, batch, newBranch, i);
    var y := PlaceOf(s, content, batch, newBranch, j);
    if adds[i].path == adds[j].path {
      MoreAdded(adds, i, j, adds[i].path);
    }
  }

  lemma PlaceIn(s: Setup, now: Content, p: Path, before: seq<Row>, added: seq<Row>, k: nat)
    requires RowsIn(s, now, p) == before + added && k < |added|
    ensures HasAt(s, now, p, |before| + k, Id(added[k]))
  {
  }

  /** Where the k-th addition stands in its file after the commit. */
  lemma PlaceOf(s: Setup, content: Content, batch: seq<Row>, newBranch: bool, k: nat) returns (x: nat)
    requires Sound(s) && (newBranch ==> content == map[]) && k < |Additions(s, content, batch)|
    ensures var a := Additions(s, content, batch)[k];
            && a.path.Trend? && a.path.lane == a.row.lane
            && x == |RowsIn(s, content, a.path)| + |AddedTo(Additions(s, content, batch)[..k], a.path)|
            && HasAt(s, Committed(s, content, batch, newBranch), a.path, x, Id(a.row))
  {
    var adds := Additions(s, content, batch);
    PathsAreTrend(s, content, batch);
    assert adds[k] in adds;
    AddedAt(adds, k);
    var p := adds[k].path;
    FilesGrow(s, content, batch, newBranch, p);
    var held, place := RowsIn(s, content, p), |AddedTo(adds[..k], p)|;
    PlaceIn(s, Committed(s, content, batch, newBranch), p, held, AddedTo(adds, p), place);
    x := |held| + place;
  }

  lemma {:induction false} MoreAdded(adds: seq<Addition>, i: nat, j: nat, p: Path)
    requires i < j <= |adds| && adds[i].path == p
    ensures |AddedTo(adds[..i], p)| < |AddedTo(adds[..j], p)|
  {
    assert adds[..j][..j - 1] == adds[..j - 1];
    if i < j - 1 {
      MoreAdded(adds, i, j - 1, p);
    }
  }

  ghost predicate RowWithId(rows: seq<Row>, i: int, id: Identity) {
    0 <= i < |rows| && Id(rows[i]) == id
  }

  ghost predicate InPlace(adds: seq<Addition>) {
    forall a :: a in adds ==> a.path == PathOf(a.row)
  }

  /** An added row's identity is on no row its lane had. */
  lemma NewIsNotOld(s: Setup, content: Content, adds: seq<Addition>, q: Path, k: int, p: Path, i: int, id: Identity)
    requires FreshAdds(s, content, adds) && InPlace(adds)
    requires p.Trend? && q.Trend? && p.lane == q.lane
    requires RowWithId(AddedTo(adds, q), k, id)
    ensures !HasAt(s, content, p, i, id)
  {
    var y := AddedFrom(adds, q, k);
    assert adds[y] in adds;
    assert !OnLane(s, content, adds[y].row.lane, id);
  }

  lemma NewAreApart(adds: seq<Addition>, p: Path, i: int, q: Path, j: int, id: Identity)
    requires DistinctAdds(adds) && InPlace(adds)
    requires p.Trend? && q.Trend? && p.lane == q.lane
    requires RowWithId(AddedTo(adds, p), i, id) && RowWithId(AddedTo(adds, q), j, id)
    ensures p == q && i == j
  {
    var x := AddedFrom(adds, p, i);
    var y := AddedFrom(adds, q, j);
    assert adds[x] in adds && adds[y] in adds;
    assert x == y;
  }

  lemma OldAreApart(s: Setup, content: Content, p: Path, i: int, q: Path, j: int, id: Identity)
    requires NoTwice(s, content) && p.Trend? && q.Trend? && p.lane == q.lane
    requires RowWithId(RowsIn(s, content, p), i, id) && RowWithId(RowsIn(s, content, q), j, id)
    ensures p == q && i == j
  {
    assert HasAt(s, content, p, i, id) && HasAt(s, content, q, j, id);
  }

  lemma EitherPart(a: seq<Row>, b: seq<Row>, i: int, id: Identity)
    requires RowWithId(a + b, i, id)
    ensures if i < |a| then RowWithId(a, i, id) else RowWithId(b, i - |a|, id)
  {
  }

  /** Two rows of one lane with one identity, after distinct and fresh additions, are one row. */
  lemma Apart(s: Setup, content: Content, adds: seq<Addition>, p: Path, i: int, q: Path, j: int, id: Identity)
    requires NoTwice(s, content) && DistinctAdds(adds) && FreshAdds(s, content, adds) && InPlace(adds)
    requires p.Trend? && q.Trend? && p.lane == q.lane
    requires RowWithId(RowsIn(s, content, p) + AddedTo(adds, p), i, id)
    requires RowWithId(RowsIn(s, content, q) + AddedTo(adds, q), j, id)
    ensures p == q && i == j
  {
    var m, n := |RowsIn(s, content, p)|, |RowsIn(s, content, q)|;
    EitherPart(RowsIn(s, content, p), AddedTo(adds, p), i, id);
    EitherPart(RowsIn(s, content, q), AddedTo(adds, q), j, id);
    if i < m && j < n {
      OldAreApart(s, content, p, i, q, j, id);
    } else if i < m {
      NewIsNotOld(s, content, adds, q, j - n, p, i, id);
      assert false;
    } else if j < n {
      NewIsNotOld(s, content, adds, p, i - m, q, j, id);
      assert false;
    } else {
      NewAreApart(adds, p, i - m, q, j - n, id);
    }
  }

  // ----- which batches bring an identity twice

  ghost predicate DistinctBatch(batch: seq<Row>) {
    forall i, j :: 0 <= i < j < |batch| ==> Id(batch[i]) != Id(batch[j])
  }

  /** A batch holds both a promotion row and a preset row that would leave that same promotion. */
  ghost predicate Clashes(s: Setup, content: Content, batch: seq<Row>) {
    exists i, j :: Clash(s, content, batch, i, j)
  }

  ghost predicate Clash(s: Setup, content: Content, batch: seq<Row>, i: int, j: int) {
    && 0 <= i < |batch| && 0 <= j < |batch|
    && batch[i].lane == batch[j].lane
    && HasAsset(batch[i]) && Id(batch[j]) == Id(PromotionOf(batch[i]))
    && var seen := Seen(s, content, batch[i].lane);
       Id(batch[i]) in seen && seen[Id(batch[i])].assetUrl != batch[i].assetUrl && Id(batch[j]) !in seen
  }

  /** Which row of the batch the k-th addition comes from. */
  lemma {:induction false} Origin(s: Setup, content: Content, batch: seq<Row>, k: nat) returns (i: nat)
    requires k < |Additions(s, content, batch)|
    ensures i < |batch| && |Additions(s, content, batch[..i])| == k
    ensures AddedBy(s, content, batch[i]) == [Additions(s, content, batch)[k]]
  {
    var n := |batch| - 1;
    if k == |Additions(s, content, batch[..n])| {
      i := n;
    } else {
      i := Origin(s, content, batch[..n], k);
      assert batch[..n][..i] == batch[..i];
    }
  }

  lemma {:induction false} Added(s: Setup, content: Content, batch: seq<Row>, i: nat) returns (k: nat)
    requires i < |batch| && AddedBy(s, content, batch[i]) != []
    ensures k == |Additions(s, content, batch[..i])| < |Additions(s, content, batch)|
    ensures AddedBy(s, content, batch[i]) == [Additions(s, content, batch)[k]]
  {
    var n := |batch| - 1;
    var before, last := Additions(s, content, batch[..n]), AddedBy(s, content, batch[n]);
    assert Additions(s, content, batch) == before + last;
    if i == n {
      k := |before|;
      assert (before + last)[k] == last[0];
    } else {
      k := Added(s, content, batch[..n], i);
      assert batch[..n][..i] == batch[..i];
      assert (before + last)[k] == before[k];
    }
  }

  /** The additions of a batch of distinct rows bring an identity twice exactly when the batch
      clashes; so never for a batch without promotion rows. */
  lemma DistinctExactly(s: Setup, content: Content, batch: seq<Row>)
    requires DistinctBatch(batch)
    ensures DistinctAdds(Additions(s, content, batch)) <==> !Clashes(s, content, batch)
  {
    var adds := Additions(s, content, batch);
    if !Clashes(s, content, batch) {
      forall x, y | 0 <= x < y < |adds| && adds[x].row.lane == adds[y].row.lane
        ensures Id(adds[x].row) != Id(adds[y].row)
      {
        var i := Origin(s, content, batch, x);
        var j := Origin(s, content, batch, y);
        assert i != j;
        assert !Clash(s, content, batch, i, j) && !Clash(s, content, batch, j, i);
        RowsApart(s, content, batch, i, j);
      }
    } else {
      var i, j :| Clash(s, content, batch, i, j);
      var x := Added(s, content, batch, i);
      var y := Added(s, content, batch, j);
      assert adds[x].row == PromotionOf(batch[i]) && adds[y].row == batch[j];
      assert i != j;
      DifferentAdds(s, content, batch, i, j);
    }
  }

  lemma DifferentAdds(s: Setup, content: Content, batch: seq<Row>, i: nat, j: nat)
    requires i < |batch| && j < |batch| && i != j
    requires AddedBy(s, content, batch[i]) != [] && AddedBy(s, content, batch[j]) != []
    ensures |Additions(s, content, batch[..i])| != |Additions(s, content, batch[..j])|
  {
    if i < j {
      assert batch[..j][..i] == batch[..i];
      var k := Added(s, content, batch[..j], i);
    } else {
      assert batch[..i][..j] == batch[..j];
      var k := Added(s, content, batch[..i], j);
    }
  }

  lemma RowsApart(s: Setup, content: Content, batch: seq<Row>, i: nat, j: nat)
    requires DistinctBatch(batch) && i < |batch| && j < |batch| && i != j
    requires !Clash(s, content, batch, i, j) && !Clash(s, content, batch, j, i)
    requires |AddedBy(s, content, batch[i])| == 1 == |AddedBy(s, content, batch[j])|
    ensures var a, b := AddedBy(s, content, batch[i])[0].row, AddedBy(s, content, batch[j])[0].row;
            a.lane == b.lane ==> Id(a) != Id(b)
  {
    var a, b := AddedBy(s, content, batch[i])[0].row, AddedBy(s, content, batch[j])[0].row;
    assert Id(batch[i]) != Id(batch[j]);
    if Id(a) == Id(b) && a.lane == b.lane {
      if a == PromotionOf(batch[i]) && HasAsset(batch[i]) && b == PromotionOf(batch[j]) && HasAsset(batch[j]) {
        PromotionsDiffer(batch[i], batch[j]);
      }
    }
  }

  lemma NoPromotionNoClash(s: Setup, content: Content, batch: seq<Row>)
    requires forall i :: 0 <= i < |batch| ==> !batch[i].kind.Promotion?
    ensures !Clashes(s, content, batch)
  {
  }

  // ----- a batch that does

  /** The branch after one attempt has added `r` to an empty one. */
  function OneRowOn(s: Setup, r: Row): Content {
    Committed(s, map[], [r], true)
  }

  lemma OnlyKeysListed(s: Setup, keys: set<Path>, lane: string, p: Path)
    requires Sound(s)
    ensures p in s.list(keys, lane) ==> p in keys && p.Trend? && p.lane == lane
  {
  }

  lemma NothingListed(s: Setup, content: Content, lane: string)
    requires Sound(s) && content.Keys == {}
    ensures Seen(s, content, lane) == map[]
  {
    var listed := s.list(content.Keys, lane);
    if listed != [] {
      OnlyKeysListed(s, content.Keys, lane, listed[0]);
    }
  }

  lemma NothingSeen(s: Setup, r: Row)
    requires Sound(s)
    ensures NoTwice(s, map[]) && Additions(s, map[], [r]) == [Addition(PathOf(r), r)]
  {
    NothingListed(s, map[], r.lane);
    assert [r][..0] == [];
  }

  /** `r` is the only row of the trend files. */
  ghost predicate OnlyRow(s: Setup, content: Content, r: Row) {
    forall p: Path :: p.Trend? ==> RowsIn(s, content, p) == if p == PathOf(r) then [r] else []
  }

  lemma OneRowThere(s: Setup, r: Row)
    requires Sound(s)
    ensures OnlyRow(s, OneRowOn(s, r), r) && NoTwice(s, OneRowOn(s, r))
  {
    NothingSeen(s, r);
    NoTwiceExactly(s, map[], [r], true);
    assert [Addition(PathOf(r), r)][..0] == [];
    forall p: Path | p.Trend?
      ensures RowsIn(s, OneRowOn(s, r), p) == if p == PathOf(r) then [r] else []
    {
      FilesGrow(s, map[], [r], true, p);
    }
  }

  /** What the lane of the only row holds is that row. */
  lemma OnlyRowSeen(s: Setup, content: Content, r: Row, id: Identity)
    requires Sound(s) && OnlyRow(s, content, r)
    ensures id in Seen(s, content, r.lane) <==> id == Id(r)
    ensures id == Id(r) ==> Seen(s, content, r.lane)[id] == r
  {
    assert HasAt(s, content, PathOf(r), 0, Id(r));
    SeenExactly(s, content, r.lane, id);
    if id in Seen(s, content, r.lane) {
      var paths := s.list(content.Keys, r.lane);
      var k := ByIdFrom(ListedRows(s, content, paths), id);
      var p := ListedOnly(s, content, paths, ListedRows(s, content, paths)[k]);
      assert RowsIn(s, content, p) == if p == PathOf(r) then [r] else [];
    }
  }

  lemma PromotionClashes(s: Setup, content: Content, r: Row, promoted: Row)
    requires Sound(s) && OnlyRow(s, content, r) && r.kind.Preset? && r.assetUrl.None?
    requires HasAsset(promoted) && Id(promoted) == Id(r) && promoted.lane == r.lane
    ensures DistinctBatch([promoted, PromotionOf(promoted)])
            && Clash(s, content, [promoted, PromotionOf(promoted)], 0, 1)
  {
    OnlyRowSeen(s, content, r, Id(r));
    OnlyRowSeen(s, content, r, Id(PromotionOf(promoted)));
  }

  /** A batch that records an identity twice: the branch holds a preset row that left no asset, and
      the batch holds that row, now promoted with one, and its promotion row. */
  lemma PromotionTwice(s: Setup, r: Row, url: string)
    requires Sound(s) && r.kind.Preset? && r.assetUrl.None? && url != ""
    ensures var content, promoted := OneRowOn(s, r), r.(promoted := true, assetUrl := Some(url));
            var batch := [promoted, PromotionOf(promoted)];
            NoTwice(s, content) && DistinctBatch(batch) && !NoTwice(s, Committed(s, content, batch, false))
  {
    var content, promoted := OneRowOn(s, r), r.(promoted := true, assetUrl := Some(url));
    var batch := [promoted, PromotionOf(promoted)];
    OneRowThere(s, r);
    PromotionClashes(s, content, r, promoted);
    assert Clashes(s, content, batch);
    DistinctExactly(s, content, batch);
    NoTwiceExactly(s, content, batch, false);
  }

  // ----- what the batch has on the branch afterwards

  /** What a lane holds, it still holds after a commit. */
  lemma StaysOnLane(s: Setup, content: Content, batch: seq<Row>, newBranch: bool, lane: string, id: Identity)
    requires Sound(s) && (newBranch ==> content == map[]) && OnLane(s, content, lane, id)
    ensures OnLane(s, Committed(s, content, batch, newBranch), lane, id)
  {
    var p: Path, k :| p.Trend? && p.lane == lane && HasAt(s, content, p, k, id);
    FilesGrow(s, content, batch, newBranch, p);
    assert HasAt(s, Committed(s, content, batch, newBranch), p, k, id);
  }

  /** Every addition is in its lane after the commit. */
  lemma AdditionThere(s: Setup, content: Content, batch: seq<Row>, newBranch: bool, k: nat)
    requires Sound(s) && (newBranch ==> content == map[]) && k < |Additions(s, content, batch)|
    ensures var r := Additions(s, content, batch)[k].row;
            OnLane(s, Committed(s, content, batch, newBranch), r.lane, Id(r))
  {
    var x := PlaceOf(s, content, batch, newBranch, k);
  }

  lemma BatchThere(s: Setup, content: Content, batch: seq<Row>, newBranch: bool, i: nat)
    requires Sound(s) && i < |batch| && (newBranch ==> content == map[])
    ensures OnLane(s, Committed(s, content, batch, newBranch), batch[i].lane, Id(batch[i]))
  {
    var r := batch[i];
    var now := Committed(s, content, batch, newBranch);
    if Id(r) in Seen(s, content, r.lane) {
      SeenExactly(s, content, r.lane, Id(r));
      StaysOnLane(s, content, batch, newBranch, r.lane, Id(r));
    } else {
      var k := Added(s, content, batch, i);
      AdditionThere(s, content, batch, newBranch, k);
    }
  }

  /** When there is nothing to add, everything is already there. */
  lemma NothingToAdd(s: Setup, content: Content, batch: seq<Row>, i: nat)
    requires Sound(s) && i < |batch| && Additions(s, content, batch) == []
    ensures OnLane(s, content, batch[i].lane, Id(batch[i]))
  {
    if Id(batch[i]) !in Seen(s, content, batch[i].lane) {
      var k := Added(s, content, batch, i);
    }
    SeenExactly(s, content, batch[i].lane, Id(batch[i]));
  }

  // ----- the rows of a batch

  /** The first row of each identity: a row listed twice in one batch is one record. */
  function Unique(rows: seq<Row>): seq<Row> {
    if rows == [] then []
    else
      var before, last := Unique(rows[..|rows| - 1]), rows[|rows| - 1];
      if Listed(before, Id(last)) then before else before + [last]
  }

  predicate Listed(rows: seq<Row>, id: Identity) {
    exists i :: 0 <= i < |rows| && Id(rows[i]) == id
  }

  lemma {:induction false} UniqueDistinct(rows: seq<Row>)
    ensures DistinctBatch(Unique(rows))
    ensures forall i :: 0 <= i < |rows| ==> Listed(Unique(rows), Id(rows[i]))
  {
    if rows != [] {
      var n := |rows| - 1;
      UniqueDistinct(rows[..n]);
      var before, all := Unique(rows[..n]), Unique(rows);
      forall i | 0 <= i < |rows|
        ensures Listed(all, Id(rows[i]))
      {
        if i < n {
          var k :| 0 <= k < |before| && Id(before[k]) == Id(rows[i]);
          assert Id(all[k]) == Id(rows[i]);
        } else if !Listed(before, Id(rows[n])) {
          assert Id(all[|before|]) == Id(rows[n]);
        }
      }
    }
  }

  // ----- the law of the append

  /** The lane has a row that agrees with `r`. */
  ghost predicate Holds(s: Setup, content: Content, lane: string, r: Row) {
    exists p: Path, k :: p.Trend? && p.lane == lane && AgreesAt(s, content, p, k, r)
  }

  predicate AgreesAt(s: Setup, content: Content, p: Path, k: int, r: Row) {
    0 <= k < |RowsIn(s, content, p)| && Agree(RowsIn(s, content, p)[k], r)
  }

  lemma HoldsExactly(s: Setup, content: Content, lane: string, r: Row)
    ensures Holds(s, content, lane, r) <==> OnLane(s, content, lane, Id(r))
  {
    if p: Path, k :| p.Trend? && p.lane == lane && AgreesAt(s, content, p, k, r) {
      OneRecord(RowsIn(s, content, p)[k], r);
      assert HasAt(s, content, p, k, Id(r));
    }
    if p: Path, k :| p.Trend? && p.lane == lane && HasAt(s, content, p, k, Id(r)) {
      OneRecord(RowsIn(s, content, p)[k], r);
      assert AgreesAt(s, content, p, k, r);
    }
  }

  /** No row before the i-th agrees with it. */
  predicate IsFirst(rows: seq<Row>, i: nat) {
    i < |rows| && forall j :: 0 <= j < i ==> !Agree(rows[j], rows[i])
  }

  lemma {:induction false} SomeFirst(rows: seq<Row>, i: nat) returns (j: nat)
    requires i < |rows|
    ensures j <= i && IsFirst(rows, j) && Agree(rows[j], rows[i])
  {
    if IsFirst(rows, i) {
      j := i;
    } else {
      var k :| 0 <= k < i && Agree(rows[k], rows[i]);
      j := SomeFirst(rows, k);
      OneRecord(rows[j], rows[k]);
      OneRecord(rows[k], rows[i]);
      OneRecord(rows[j], rows[i]);
    }
  }

  ghost predicate FirstIs(rows: seq<Row>, x: Row) {
    exists i: nat :: IsFirst(rows, i) && rows[i] == x
  }

  lemma FirstOfPrefix(rows: seq<Row>, n: nat, i: nat)
    requires i < n <= |rows|
    ensures IsFirst(rows[..n], i) <==> IsFirst(rows, i)
  {
    var before := rows[..n];
    if IsFirst(before, i) {
      forall j | 0 <= j < i
        ensures !Agree(rows[j], rows[i])
      {
        assert !Agree(before[j], before[i]);
      }
    }
  }

  lemma FirstsGrow(rows: seq<Row>, n: nat, x: Row)
    requires n + 1 == |rows|
    ensures FirstIs(rows, x) <==> FirstIs(rows[..n], x) || (IsFirst(rows, n) && rows[n] == x)
  {
    if FirstIs(rows, x) {
      var i: nat :| IsFirst(rows, i) && rows[i] == x;
      if i < n {
        FirstOfPrefix(rows, n, i);
      }
    }
    if FirstIs(rows[..n], x) {
      var i: nat :| IsFirst(rows[..n], i) && rows[..n][i] == x;
      FirstOfPrefix(rows, n, i);
    }
  }

  /** What a batch keeps: the first row of each record. */
  lemma {:induction false} UniqueFirsts(rows: seq<Row>, x: Row)
    ensures x in Unique(rows) <==> FirstIs(rows, x)
  {
    if rows != [] {
      UniqueFirsts(rows[..|rows| - 1], x);
      FirstsGrow(rows, |rows| - 1, x);
      LastFirst(rows);
    }
  }

  lemma LastFirst(rows: seq<Row>)
    requires rows != []
    ensures var n := |rows| - 1; Listed(Unique(rows[..n]), Id(rows[n])) <==> !IsFirst(rows, n)
  {
    var n := |rows| - 1;
    var before := Unique(rows[..n]);
    UniqueDistinct(rows[..n]);
    if !IsFirst(rows, n) {
      var j :| 0 <= j < n && Agree(rows[j], rows[n]);
      OneRecord(rows[j], rows[n]);
      assert Listed(before, Id(rows[..n][j]));
    }
    if i :| 0 <= i < |before| && Id(before[i]) == Id(rows[n]) {
      var j := UniqueFrom(rows[..n], i);
      OneRecord(rows[j], rows[n]);
    }
  }

  lemma {:induction false} UniqueFrom(rows: seq<Row>, i: nat) returns (j: nat)
    requires i < |Unique(rows)|
    ensures j < |rows| && Unique(rows)[i] == rows[j]
  {
    var n := |rows| - 1;
    if i < |Unique(rows[..n])| {
      j := UniqueFrom(rows[..n], i);
    } else {
      j := n;
    }
  }

  lemma FirstInBatch(rows: seq<Row>, i: nat) returns (k: nat)
    requires IsFirst(rows, i)
    ensures k < |Unique(rows)| && Unique(rows)[k] == rows[i]
  {
    UniqueFirsts(rows, rows[i]);
    k :| 0 <= k < |Unique(rows)| && Unique(rows)[k] == rows[i];
  }

  lemma NewRowThere(s: Setup, content: Content, batch: seq<Row>, newBranch: bool, k: nat)
    requires Sound(s) && (newBranch ==> content == map[]) && k < |batch|
    requires Id(batch[k]) !in Seen(s, content, batch[k].lane)
    ensures batch[k] in RowsIn(s, Committed(s, content, batch, newBranch), PathOf(batch[k]))
  {
    var adds := Additions(s, content, batch);
    var x := Added(s, content, batch, k);
    AddedAt(adds, x);
    FilesGrow(s, content, batch, newBranch, PathOf(batch[k]));
    assert batch[k] in AddedTo(adds, PathOf(batch[k]));
  }

  /** Every record is on its lane after a commit, and the first row of one that was not there is there
      itself. */
  lemma RowsRecorded(s: Setup, content: Content, rows: seq<Row>, newBranch: bool, i: nat)
    requires Sound(s) && (newBranch ==> content == map[]) && IsFirst(rows, i)
    ensures var now, r := Committed(s, content, Unique(rows), newBranch), rows[i];
            && Holds(s, now, r.lane, r)
            && (!Holds(s, content, r.lane, r) ==> r in RowsIn(s, now, Trend(r.lane, r.month)))
  {
    var batch, r := Unique(rows), rows[i];
    var now := Committed(s, content, batch, newBranch);
    var k := FirstInBatch(rows, i);
    BatchThere(s, content, batch, newBranch, k);
    HoldsExactly(s, now, r.lane, r);
    HoldsExactly(s, content, r.lane, r);
    SeenExactly(s, content, r.lane, Id(r));
    if Id(r) !in Seen(s, content, r.lane) {
      NewRowThere(s, content, batch, newBranch, k);
    }
  }

  /** A row of the lane agrees with `r` and has its asset, or cites its bundle. */
  ghost predicate Cited(s: Setup, content: Content, lane: string, r: Row) {
    exists p: Path, k :: p.Trend? && p.lane == lane && 0 <= k < |RowsIn(s, content, p)|
      && CitedBy(RowsIn(s, content, p)[k], r)
  }

  predicate CitedBy(x: Row, r: Row) {
    (Agree(x, r) && x.assetUrl == r.assetUrl) || Cites(x, r)
  }

  lemma CitedAt(s: Setup, content: Content, p: Path, k: nat, r: Row)
    requires p.Trend? && p.lane == r.lane && k < |RowsIn(s, content, p)| && CitedBy(RowsIn(s, content, p)[k], r)
    ensures Cited(s, content, r.lane, r)
  {
  }

  lemma AddedCites(seen: map<Identity, Row>, r: Row)
    requires HasAsset(r) && AddedRow(seen, r).Some?
    ensures CitedBy(AddedRow(seen, r).value, r)
  {
  }

  /** When a promoted row adds nothing, the lane cites its bundle already. */
  lemma SeenCites(s: Setup, content: Content, r: Row) returns (p: Path, k: nat)
    requires Sound(s) && HasAsset(r) && AddedBy(s, content, r) == []
    ensures p.Trend? && p.lane == r.lane && k < |RowsIn(s, content, p)| && CitedBy(RowsIn(s, content, p)[k], r)
  {
    var seen := Seen(s, content, r.lane);
    var recorded := seen[Id(r)];
    if recorded.assetUrl == r.assetUrl {
      p, k := SeenAt(s, content, r.lane, Id(r));
      OneRecord(recorded, r);
    } else {
      p, k := SeenAt(s, content, r.lane, Id(PromotionOf(r)));
      OneRecord(RowsIn(s, content, p)[k], PromotionOf(r));
    }
  }

  /** Where the row that a lane's lookup gives is. */
  lemma SeenAt(s: Setup, content: Content, lane: string, id: Identity) returns (p: Path, k: nat)
    requires Sound(s) && id in Seen(s, content, lane)
    ensures p.Trend? && p.lane == lane && k < |RowsIn(s, content, p)|
    ensures RowsIn(s, content, p)[k] == Seen(s, content, lane)[id] && Id(RowsIn(s, content, p)[k]) == id
  {
    var paths := s.list(content.Keys, lane);
    var i := ByIdFrom(ListedRows(s, content, paths), id);
    p := ListedOnly(s, content, paths, ListedRows(s, content, paths)[i]);
    k :| 0 <= k < |RowsIn(s, content, p)| && RowsIn(s, content, p)[k] == ListedRows(s, content, paths)[i];
  }

  lemma AddedCited(s: Setup, content: Content, batch: seq<Row>, newBranch: bool, k: nat)
    requires Sound(s) && (newBranch ==> content == map[]) && k < |batch|
    requires HasAsset(batch[k]) && AddedBy(s, content, batch[k]) != []
    ensures Cited(s, Committed(s, content, batch, newBranch), batch[k].lane, batch[k])
  {
    var r := batch[k];
    var x := Added(s, content, batch, k);
    var y := PlaceOf(s, content, batch, newBranch, x);
    AddedCites(Seen(s, content, r.lane), r);
    var added := Additions(s, content, batch)[x];
    FilesGrow(s, content, batch, newBranch, added.path);
    AddedAt(Additions(s, content, batch), x);
    CitedAt(s, Committed(s, content, batch, newBranch), added.path, y, r);
  }

  lemma StillCited(s: Setup, content: Content, batch: seq<Row>, newBranch: bool, r: Row)
    requires Sound(s) && (newBranch ==> content == map[]) && HasAsset(r) && AddedBy(s, content, r) == []
    ensures Cited(s, Committed(s, content, batch, newBranch), r.lane, r)
  {
    var p, y := SeenCites(s, content, r);
    FilesGrow(s, content, batch, newBranch, p);
    CitedAt(s, Committed(s, content, batch, newBranch), p, y, r);
  }

  /** The bundle of a promoted preset row is cited on its lane after a commit. */
  lemma BundleCited(s: Setup, content: Content, rows: seq<Row>, newBranch: bool, i: nat)
    requires Sound(s) && (newBranch ==> content == map[]) && IsFirst(rows, i)
    requires rows[i].kind == Preset && rows[i].promoted && rows[i].assetUrl.Some? && rows[i].assetUrl.value != ""
    ensures Cited(s, Committed(s, content, Unique(rows), newBranch), rows[i].lane, rows[i])
  {
    var k := FirstInBatch(rows, i);
    if AddedBy(s, content, rows[i]) != [] {
      AddedCited(s, content, Unique(rows), newBranch, k);
    } else {
      StillCited(s, content, Unique(rows), newBranch, rows[i]);
    }
  }

  /** `x` is new on `p`: a first row of the batch whose lane had none that agrees with it, or a
      promotion that wholly cites one whose recorded copy has another asset, and that the lane had not. */
  ghost predicate MayAdd(s: Setup, content: Content, rows: seq<Row>, i: nat, p: Path, x: Row) {
    && IsFirst(rows, i) && p == Trend(rows[i].lane, rows[i].month) && !Holds(s, content, rows[i].lane, x)
    && (x == rows[i] || (CitesWholly(x, rows[i]) && RecordedOtherwise(s, content, rows[i])))
  }

  ghost predicate RecordedOtherwise(s: Setup, content: Content, r: Row) {
    exists p: Path, k :: p.Trend? && p.lane == r.lane && AgreesAt(s, content, p, k, r)
      && RowsIn(s, content, p)[k].assetUrl != r.assetUrl
  }

  lemma AddedMay(s: Setup, content: Content, rows: seq<Row>, i: nat, x: Row)
    requires Sound(s) && IsFirst(rows, i) && AddedRow(Seen(s, content, rows[i].lane), rows[i]) == Some(x)
    ensures MayAdd(s, content, rows, i, Trend(rows[i].lane, rows[i].month), x)
  {
    var r := rows[i];
    SeenExactly(s, content, r.lane, Id(x));
    HoldsExactly(s, content, r.lane, x);
    if Id(r) in Seen(s, content, r.lane) {
      RecoveredExactly(r, Seen(s, content, r.lane)[Id(r)]);
      var p, k := SeenAt(s, content, r.lane, Id(r));
      OneRecord(RowsIn(s, content, p)[k], r);
      assert AgreesAt(s, content, p, k, r);
    }
  }

  lemma AdditionMay(s: Setup, content: Content, rows: seq<Row>, p: Path, k: nat) returns (i: nat)
    requires Sound(s) && k < |AddedTo(Additions(s, content, Unique(rows)), p)|
    ensures MayAdd(s, content, rows, i, p, AddedTo(Additions(s, content, Unique(rows)), p)[k])
  {
    var batch := Unique(rows);
    var adds := Additions(s, content, batch);
    var x := AddedFrom(adds, p, k);
    var b := Origin(s, content, batch, x);
    UniqueFirsts(rows, batch[b]);
    i :| IsFirst(rows, i) && rows[i] == batch[b];
    assert AddedBy(s, content, batch[b])[0] == adds[x];
    AddedMay(s, content, rows, i, adds[x].row);
  }

  ghost predicate SomeMayAdd(s: Setup, content: Content, rows: seq<Row>, p: Path, x: Row) {
    exists i: nat :: MayAdd(s, content, rows, i, p, x)
  }

  /** A commit keeps every row where it is, and adds nothing else. */
  lemma NothingElseAdded(s: Setup, content: Content, rows: seq<Row>, newBranch: bool, p: Path)
    requires Sound(s) && (newBranch ==> content == map[]) && p.Trend?
    ensures var before, now := RowsIn(s, content, p), RowsIn(s, Committed(s, content, Unique(rows), newBranch), p);
            before <= now && forall k :: |before| <= k < |now| ==> SomeMayAdd(s, content, rows, p, now[k])
  {
    var added := AddedTo(Additions(s, content, Unique(rows)), p);
    FilesGrow(s, content, Unique(rows), newBranch, p);
    forall k | 0 <= k < |added|
      ensures SomeMayAdd(s, content, rows, p, added[k])
    {
      var i := AdditionMay(s, content, rows, p, k);
    }
  }

  /** The rows already recorded, promotion or none. */
  function SkippedRows(s: Setup, content: Content, batch: seq<Row>): seq<Row> {
    if batch == [] then []
    else
      SkippedRows(s, content, batch[..|batch| - 1])
      + if Id(batch[|batch| - 1]) in Seen(s, content, batch[|batch| - 1].lane) then [batch[|batch| - 1]] else []
  }

  /** The README is written with the branch's first commit, and never again. */
  lemma ReadmeOnce(s: Setup, content: Content, batch: seq<Row>, newBranch: bool)
    ensures var now := Committed(s, content, batch, newBranch);
            && (newBranch ==> Readme in now && now[Readme] == s.readme)
            && (!newBranch ==> (Readme in now <==> Readme in content))
            && (!newBranch && Readme in content ==> now[Readme] == content[Readme])
  {
    PathsAreTrend(s, content, batch);
  }

  /** The rows counted as skipped are those whose lane had one that agrees with them. */
  lemma {:induction false} SkippedExactly(s: Setup, content: Content, batch: seq<Row>, r: Row)
    requires Sound(s)
    ensures r in SkippedRows(s, content, batch) <==> r in batch && Holds(s, content, r.lane, r)
  {
    if batch != [] {
      SkippedExactly(s, content, batch[..|batch| - 1], r);
      HoldsExactly(s, content, r.lane, r);
      SeenExactly(s, content, r.lane, Id(r));
      assert r in batch <==> r in batch[..|batch| - 1] || r == batch[|batch| - 1];
    }
  }

  // ----- the loop

  /** How the additions and the skipped rows go on with the next row of the batch. */
  lemma OneMore(s: Setup, content: Content, batch: seq<Row>, i: nat)
    requires i < |batch|
    ensures var row := AddedRow(Seen(s, content, batch[i].lane), batch[i]);
            Additions(s, content, batch[..i + 1])
            == if row.None? then Additions(s, content, batch[..i])
               else Additions(s, content, batch[..i]) + [Addition(PathOf(batch[i]), row.value)]
    ensures |SkippedRows(s, content, batch[..i + 1])|
         == |SkippedRows(s, content, batch[..i])| + if Id(batch[i]) in Seen(s, content, batch[i].lane) then 1 else 0
  {
    assert batch[..i + 1][..i] == batch[..i];
  }

  method Decide(seen: map<Identity, Row>, r: Row) returns (row: Option<Row>, skip: bool)
    ensures row == AddedRow(seen, r) && (skip <==> Id(r) in seen)
  {
    if Id(r) !in seen {
      return Some(r), false;
    }
    var recovered := Recovered(r, seen[Id(r)]);
    if recovered.Some? && Id(recovered.value) !in seen {
      return recovered, true;
    }
    return None, true;
  }

  ghost predicate AreSeen(s: Setup, content: Content, lanes: map<string, map<Identity, Row>>) {
    forall lane :: lane in lanes ==> lanes[lane] == Seen(s, content, lane)
  }

  /** `lanes[lane]`, read from the branch the first time. */
  method LaneOf(s: Setup, content: Content, lanes: map<string, map<Identity, Row>>, lane: string)
      returns (grown: map<string, map<Identity, Row>>, seen: map<Identity, Row>)
    requires AreSeen(s, content, lanes)
    ensures AreSeen(s, content, grown) && seen == Seen(s, content, lane)
  {
    grown := if lane in lanes then lanes else lanes[lane := Seen(s, content, lane)];
    seen := grown[lane];
  }

  /** The additions of one attempt, file by file, against the lanes it reads as it goes. */
  method Collect(s: Setup, content: Content, batch: seq<Row>)
      returns (additions: map<Path, seq<Row>>, added: nat, skipped: nat)
    ensures additions == GroupOf(Additions(s, content, batch))
    ensures added == |Additions(s, content, batch)| && skipped == |SkippedRows(s, content, batch)|
  {
    additions, added, skipped := map[], 0, 0;
    var lanes: map<string, map<Identity, Row>> := map[];
    ghost var adds: seq<Addition> := [];
    for i := 0 to |batch|
      invariant AreSeen(s, content, lanes)
      invariant adds == Additions(s, content, batch[..i])
      invariant additions == GroupOf(adds)
      invariant added == |adds| && skipped == |SkippedRows(s, content, batch[..i])|
    {
      var r := batch[i];
      OneMore(s, content, batch, i);
      var seen;
      lanes, seen := LaneOf(s, content, lanes, r.lane);
      var row, skip := Decide(seen, r);
      if skip {
        skipped := skipped + 1;
      }
      if row.Some? {
        additions := Add(additions, adds, PathOf(r), row.value);
        adds, added := adds + [Addition(PathOf(r), row.value)], added + 1;
      }
    }
    assert batch[..|batch|] == batch;
  }

  /** The body of one attempt, up to the commit: None when every row is already recorded. */
  method Attempt(s: Setup, content: Content, newBranch: bool, batch: seq<Row>)
      returns (changes: Option<Content>, added: nat, skipped: nat)
    ensures added == |Additions(s, content, batch)| && skipped == |SkippedRows(s, content, batch)|
    ensures changes.None? <==> Additions(s, content, batch) == []
    ensures changes.Some? ==> content + changes.value == Committed(s, content, batch, newBranch)
  {
    var additions;
    additions, added, skipped := Collect(s, content, batch);
    if added == 0 {
      return None, added, skipped;
    }
    var files := AppendedFiles(s, content, additions);
    if newBranch {
      files := files[Readme := s.readme];
    }
    changes := Some(files);
  }

  /** `additions.setdefault(path, []).append(row)` */
  method Add(additions: map<Path, seq<Row>>, ghost adds: seq<Addition>, p: Path, r: Row)
      returns (grown: map<Path, seq<Row>>)
    requires additions == GroupOf(adds)
    ensures grown == GroupOf(adds + [Addition(p, r)])
  {
    grown := additions[p := (if p in additions then additions[p] else []) + [r]];
    PathsGrow(adds, p, r);
    forall q | q in grown
      ensures grown[q] == AddedTo(adds + [Addition(p, r)], q)
    {
      AddedGrows(adds, p, r, q);
    }
  }

  lemma PathsGrow(adds: seq<Addition>, p: Path, r: Row)
    ensures PathsOf(adds + [Addition(p, r)]) == PathsOf(adds) + {p}
  {
    var longer := adds + [Addition(p, r)];
    assert longer[|adds|] == Addition(p, r);
    forall a | a in adds
      ensures a in longer
    {
      var i :| 0 <= i < |adds| && adds[i] == a;
      assert longer[i] == a;
    }
  }

  lemma AddedGrows(adds: seq<Addition>, p: Path, r: Row, q: Path)
    ensures AddedTo(adds + [Addition(p, r)], q) == AddedTo(adds, q) + if q == p then [r] else []
    ensures q !in PathsOf(adds) ==> AddedTo(adds, q) == []
  {
    assert (adds + [Addition(p, r)])[..|adds|] == adds;
    if q !in PathsOf(adds) {
      NothingElsewhere(adds, q);
    }
  }
}
