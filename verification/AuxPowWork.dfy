/** lab/auxpow/auxpow_coordinator.py: from a job's template to the header a miner hashes and the block
    rebuilt at submission. `hash` is double SHA-256 and transactions are their serialized bytes. */
module AuxPowWork {
  import opened Common
  import opened Results
  import opened StratumCodec
  import opened Merkle

  // ----- cutting the coinbase at the placeholder

  predicate OccursAt(data: Bytes, pattern: Bytes, at: nat) {
    at + |pattern| <= |data| && data[at..at + |pattern|] == pattern
  }

  /** A pattern occurs exactly where it cuts the data in two. */
  lemma OccursBetween(data: Bytes, pattern: Bytes, at: nat)
    ensures OccursAt(data, pattern, at) <==>
            at + |pattern| <= |data| && data == data[..at] + pattern + data[at + |pattern|..]
  {
    if at + |pattern| <= |data| {
      var whole := data[..at] + pattern + data[at + |pattern|..];
      if data == whole {
        assert data[at..at + |pattern|] == whole[at..at + |pattern|] == pattern;
      }
      assert data == data[..at] + data[at..at + |pattern|] + data[at + |pattern|..];
    }
  }

  /** `data.find(pattern, start)` */
  function Find(data: Bytes, pattern: Bytes, start: nat): (at: int)
    ensures at == -1 || (start <= at && OccursAt(data, pattern, at))
    ensures forall i :: start <= i && (at == -1 || i < at) ==> !OccursAt(data, pattern, i)
    decreases |data| - start
  {
    if OccursAt(data, pattern, start) then start
    else if start >= |data| then -1
    else Find(data, pattern, start + 1)
  }

  datatype Split = Split(coinb1: string, coinb2: string)

  /** `make_job`'s split; None is its refusal. */
  function SplitCoinbase(coinbase: Bytes, placeholder: Bytes): Option<Split> {
    var at := Find(coinbase, placeholder, 0);
    if at == -1 || Find(coinbase, placeholder, at + 1) != -1 then None
    else Some(Split(ToHex(coinbase[..at]), ToHex(coinbase[at + |placeholder|..])))
  }

  /** The coinbase splits exactly when the placeholder occurs at one place only. */
  lemma SplitsOnce(coinbase: Bytes, placeholder: Bytes)
    ensures SplitCoinbase(coinbase, placeholder).Some? <==>
            exists at: nat :: OccursAt(coinbase, placeholder, at) && forall i: nat :: i != at ==>
              !OccursAt(coinbase, placeholder, i)
  {
    var at := Find(coinbase, placeholder, 0);
    if SplitCoinbase(coinbase, placeholder).Some? {
      forall i: nat | i != at
        ensures !OccursAt(coinbase, placeholder, i)
      {
        assert i < at || at + 1 <= i;
      }
    }
  }

  /** `assemble_coinbase` */
  function AssembleCoinbase(coinb1: string, extranonce1: string, extranonce2: string,
      coinb2: string): Result<Bytes, Error>
  {
    var first :- Validate(coinb1, 0);
    var one :- Validate(extranonce1, 0);
    var two :- Validate(extranonce2, 0);
    var last :- Validate(coinb2, 0);
    match FromHex(first + (one + (two + last)))
    case None => Err(NotHex)
    case Some(coinbase) => Ok(coinbase)
  }

  lemma Assembled(coinb1: string, one: string, two: string, coinb2: string)
    ensures AssembleCoinbase(coinb1, one, two, coinb2).Ok? ==>
              && FromHex(coinb1).Some? && FromHex(one).Some? && FromHex(two).Some? && FromHex(coinb2).Some?
              && AssembleCoinbase(coinb1, one, two, coinb2).value
                 == FromHex(coinb1).value + (FromHex(one).value + (FromHex(two).value + FromHex(coinb2).value))
  {
    if AssembleCoinbase(coinb1, one, two, coinb2).Err? {
      return;
    }
    var a, b, c, d := Validate(coinb1, 0).value, Validate(one, 0).value, Validate(two, 0).value,
        Validate(coinb2, 0).value;
    FromHexAppend(c, d);
    FromHexAppend(b, c + d);
    FromHexAppend(a, b + (c + d));
  }

  /** Text `assemble_coinbase` accepts: bytes in whole pairs of characters. */
  predicate HexText(s: string) {
    |s| % 2 == 0 && FromHex(s).Some?
  }

  /** A coinbase is assembled exactly when all four texts are hexadecimal. */
  lemma AssembledExactly(coinb1: string, one: string, two: string, coinb2: string)
    ensures AssembleCoinbase(coinb1, one, two, coinb2).Ok? <==>
            HexText(coinb1) && HexText(one) && HexText(two) && HexText(coinb2)
  {
    if HexText(coinb1) && HexText(one) && HexText(two) && HexText(coinb2) {
      var a, b, c, d := Validate(coinb1, 0).value, Validate(one, 0).value, Validate(two, 0).value,
          Validate(coinb2, 0).value;
      FromHexAppend(c, d);
      FromHexAppend(b, c + d);
      FromHexAppend(a, b + (c + d));
    }
  }

  lemma SplitAt(coinbase: Bytes, placeholder: Bytes, at: nat)
    requires SplitCoinbase(coinbase, placeholder).Some? && OccursAt(coinbase, placeholder, at)
    ensures SplitCoinbase(coinbase, placeholder).value
            == Split(ToHex(coinbase[..at]), ToHex(coinbase[at + |placeholder|..]))
  {
    SplitsOnce(coinbase, placeholder);
    var found := Find(coinbase, placeholder, 0);
    assert OccursAt(coinbase, placeholder, found);
    assert found == at;
  }

  lemma AssembledBetween(front: Bytes, one: string, two: string, back: Bytes)
    ensures AssembleCoinbase(ToHex(front), one, two, ToHex(back)).Ok? ==>
              && FromHex(one).Some? && FromHex(two).Some?
              && AssembleCoinbase(ToHex(front), one, two, ToHex(back)).value
                 == front + (FromHex(one).value + (FromHex(two).value + back))
  {
    HexRoundTrip(front);
    HexRoundTrip(back);
    Assembled(ToHex(front), one, two, ToHex(back));
  }

  /** What a miner assembles is the template's coinbase with its extranonces where the placeholder
      was, and nothing else changed. */
  lemma ExtranonceReplacesPlaceholder(coinbase: Bytes, placeholder: Bytes, one: string, two: string, at: nat)
    requires SplitCoinbase(coinbase, placeholder).Some? && OccursAt(coinbase, placeholder, at)
    ensures var s := SplitCoinbase(coinbase, placeholder).value;
            var mined := AssembleCoinbase(s.coinb1, one, two, s.coinb2);
            mined.Ok? ==>
              && FromHex(one).Some? && FromHex(two).Some?
              && mined.value == coinbase[..at]
                 + (FromHex(one).value + (FromHex(two).value + coinbase[at + |placeholder|..]))
  {
    SplitAt(coinbase, placeholder, at);
    AssembledBetween(coinbase[..at], one, two, coinbase[at + |placeholder|..]);
  }

  /** The same, of a coinbase as it is put together. */
  lemma MinedCoinbase(front: Bytes, placeholder: Bytes, back: Bytes, one: string, two: string)
    ensures var split := SplitCoinbase(front + placeholder + back, placeholder);
            split.Some? ==>
              var mined := AssembleCoinbase(split.value.coinb1, one, two, split.value.coinb2);
              mined.Ok? ==>
                && FromHex(one).Some? && FromHex(two).Some?
                && mined.value == front + (FromHex(one).value + (FromHex(two).value + back))
  {
    var coinbase, at := front + placeholder + back, |front|;
    assert coinbase[..at] == front && coinbase[at + |placeholder|..] == back;
    OccursBetween(coinbase, placeholder, at);
    if SplitCoinbase(coinbase, placeholder).Some? {
      ExtranonceReplacesPlaceholder(coinbase, placeholder, one, two, at);
    }
  }

  // ----- transactions

  datatype Job = Job(split: Split, branch: seq<Bytes>, version: string, prevhash: string, ntime: string, nbits: string)

  function Pair(hash: Bytes -> Bytes): (Bytes, Bytes) -> Bytes {
    (left, right) => hash(left + right)
  }

  function Txids(hash: Bytes -> Bytes, transactions: seq<Bytes>): (r: seq<Bytes>)
    ensures |r| == |transactions|
    ensures forall i :: 0 <= i < |r| ==> r[i] == hash(transactions[i])
  {
    seq(|transactions|, i requires 0 <= i < |transactions| => hash(transactions[i]))
  }

  // ----- the Merkle tree of transactions

  /** The row above: each hash is of two neighbours, the left one first, and the last one of an odd row is
      its own neighbour. */
  function UpperRow(hash: Bytes -> Bytes, row: seq<Bytes>): (up: seq<Bytes>)
    ensures |up| == (|row| + 1) / 2
  {
    seq((|row| + 1) / 2, i requires 0 <= i < (|row| + 1) / 2 =>
      hash(row[2 * i] + row[if 2 * i + 1 < |row| then 2 * i + 1 else 2 * i]))
  }

  function TreeRoot(hash: Bytes -> Bytes, row: seq<Bytes>): Bytes
    requires row != []
    decreases |row|
  {
    if |row| == 1 then row[0] else TreeRoot(hash, UpperRow(hash, row))
  }

  lemma {:induction false} LevelIsUpperRow(hash: Bytes -> Bytes, row: seq<Bytes>)
    ensures Level(Pair(hash), row) == UpperRow(hash, row)
  {
    if |row| >= 2 {
      LevelIsUpperRow(hash, row[2..]);
      var up, rest := UpperRow(hash, row), UpperRow(hash, row[2..]);
      forall i | 0 < i < |up|
        ensures up[i] == rest[i - 1]
      {
        assert row[2..][2 * (i - 1)] == row[2 * i];
      }
      assert up == [up[0]] + rest;
    }
  }

  lemma {:induction false} RootIsTreeRoot(hash: Bytes -> Bytes, row: seq<Bytes>)
    requires row != []
    ensures Root(Pair(hash), row) == TreeRoot(hash, row)
    decreases |row|
  {
    if |row| > 1 {
      LevelIsUpperRow(hash, row);
      RootIsTreeRoot(hash, UpperRow(hash, row));
    }
  }

  // ----- jobs

  /** `make_job`, on the block template's transactions, the placeholder coinbase first. */
  method MakeJob(hash: Bytes -> Bytes, coinbase: Bytes, rest: seq<Bytes>, placeholder: Bytes, display: string,
      version: string, ntime: string, nbits: string)
      returns (job: Option<Job>)
    ensures job.Some? <==> SplitCoinbase(coinbase, placeholder).Some? && StratumPrevhash(display).Ok?
    ensures job.Some? ==> IsJob(hash, coinbase, rest, placeholder, display, job.value)
    ensures job.Some? ==> job.value.version == version && job.value.ntime == ntime && job.value.nbits == nbits
  {
    var branch := BuildBranch(Pair(hash), Txids(hash, [coinbase] + rest));
    var cut := SplitCoinbase(coinbase, placeholder);
    var prevhash := StratumPrevhash(display);
    if cut.None? || prevhash.Err? {
      return None;
    }
    job := Some(Job(cut.value, branch, version, prevhash.value, ntime, nbits));
  }

  ghost predicate IsJob(hash: Bytes -> Bytes, coinbase: Bytes, rest: seq<Bytes>, placeholder: Bytes, display: string,
      job: Job)
  {
    && SplitCoinbase(coinbase, placeholder) == Some(job.split)
    && StratumPrevhash(display) == Ok(job.prevhash)
    && job.branch == Branch(Pair(hash), Txids(hash, [coinbase] + rest))
  }

  /** A header's Merkle root field. */
  function RootField(header: Bytes): Bytes
    requires |header| == 80
  {
    header[36..68]
  }

  lemma OtherCoinbase(hash: Bytes -> Bytes, coinbase: Bytes, other: Bytes, rest: seq<Bytes>)
    ensures Txids(hash, [coinbase] + rest)[0 := hash(other)] == Txids(hash, [other] + rest)
  {
  }

  /** Whatever extranonces, nonce, time and version the miner chose, an 80-byte header it hashed
      carries exactly the Merkle root of the template's transactions behind the coinbase it assembled. */
  lemma HeaderCommitsToCoinbase(hash: Bytes -> Bytes, coinbase: Bytes, rest: seq<Bytes>, placeholder: Bytes,
      display: string, job: Job, mined: Bytes, f: Fields, header: Bytes)
    requires IsJob(hash, coinbase, rest, placeholder, display, job) && |header| == 80
    ensures SerializeHeader(f, Fold(Pair(hash), hash(mined), job.branch)) == Ok(header) ==>
              RootField(header) == TreeRoot(hash, Txids(hash, [mined] + rest))
  {
    var txids := Txids(hash, [coinbase] + rest);
    BranchProvesAnyCoinbase(Pair(hash), txids, hash(mined));
    OtherCoinbase(hash, coinbase, mined, rest);
    RootIsTreeRoot(hash, Txids(hash, [mined] + rest));
    var root := Fold(Pair(hash), hash(mined), job.branch);
    CanonicalIsFull(f, root);
    if SerializeHeader(f, root) == Ok(header) {
      CanonicalBytes(f, root);
    }
  }

  // ----- the coinbase read back

  /** Extranonces of the placeholder's length fill it exactly when they are digits only. White space in
      one is accepted too, and leaves the coinbase short. */
  lemma AssembledSize(coinbase: Bytes, placeholder: Bytes, one: string, two: string, at: nat)
    requires SplitCoinbase(coinbase, placeholder).Some? && OccursAt(coinbase, placeholder, at)
    requires |one| + |two| == 2 * |placeholder|
    ensures var s := SplitCoinbase(coinbase, placeholder).value;
            var mined := AssembleCoinbase(s.coinb1, one, two, s.coinb2);
            mined.Ok? ==> |mined.value| <= |coinbase| && (|mined.value| == |coinbase| <==> Plain(one) && Plain(two))
  {
    var s := SplitCoinbase(coinbase, placeholder).value;
    ExtranonceReplacesPlaceholder(coinbase, placeholder, one, two, at);
    AssembledExactly(s.coinb1, one, two, s.coinb2);
    FromHexSize(one);
    FromHexSize(two);
  }

  lemma EvenText(s: string, n: nat)
    requires |s| == 2 * n && FromHex(s).Some?
    ensures HexText(s)
  {
  }

  lemma HexTextOf(b: Bytes)
    ensures HexText(ToHex(b))
  {
    HexRoundTrip(b);
    EvenText(ToHex(b), |b|);
  }

  lemma SplitTexts(coinbase: Bytes, placeholder: Bytes, at: nat)
    requires SplitCoinbase(coinbase, placeholder).Some? && OccursAt(coinbase, placeholder, at)
    ensures HexText(SplitCoinbase(coinbase, placeholder).value.coinb1)
    ensures HexText(SplitCoinbase(coinbase, placeholder).value.coinb2)
  {
    SplitAt(coinbase, placeholder, at);
    HexTextOf(coinbase[..at]);
    HexTextOf(coinbase[at + |placeholder|..]);
  }

  lemma BlankExtranonce(coinbase: Bytes, placeholder: Bytes, one: string, blank: string, at: nat)
    requires SplitCoinbase(coinbase, placeholder).Some? && OccursAt(coinbase, placeholder, at)
    requires |one| + |blank| == 2 * |placeholder| && |one| % 2 == 0 && Plain(one) && FromHex(blank) == Some([])
    ensures var s := SplitCoinbase(coinbase, placeholder).value;
            var mined := AssembleCoinbase(s.coinb1, one, blank, s.coinb2);
            mined.Ok? && 2 * |mined.value| == 2 * |coinbase| - |blank|
  {
    var s := SplitCoinbase(coinbase, placeholder).value;
    SplitTexts(coinbase, placeholder, at);
    FromHexSize(one);
    EvenText(blank, |placeholder| - |one| / 2);
    AssembledExactly(s.coinb1, one, blank, s.coinb2);
    ExtranonceReplacesPlaceholder(coinbase, placeholder, one, blank, at);
  }

  /** An input that does: an extranonce2 of 16 spaces is assembled, and the coinbase is 8 bytes short. */
  lemma SpacesShortenCoinbase(coinbase: Bytes, placeholder: Bytes, one: string, at: nat)
    requires SplitCoinbase(coinbase, placeholder).Some? && OccursAt(coinbase, placeholder, at)
    requires |placeholder| == 12 && |one| == 8 && Plain(one)
    ensures var s := SplitCoinbase(coinbase, placeholder).value;
            var mined := AssembleCoinbase(s.coinb1, one, Repeat(' ', 16), s.coinb2);
            mined.Ok? && |mined.value| == |coinbase| - 8
  {
    SpacesAreEmpty(16);
    BlankExtranonce(coinbase, placeholder, one, Repeat(' ', 16), at);
  }

  /** A coinbase of the template's size that differs from it only in the placeholder's place, so that
      its lengths still hold, is read back as itself. */
  ghost predicate ReadsBack(reread: Bytes -> Bytes, coinbase: Bytes, placeholder: Bytes, at: nat)
    requires OccursAt(coinbase, placeholder, at)
  {
    forall b: Bytes | |b| == |coinbase| ::
      b[..at] == coinbase[..at] && b[at + |placeholder|..] == coinbase[at + |placeholder|..] ==> reread(b) == b
  }

  lemma RereadAsItself(reread: Bytes -> Bytes, coinbase: Bytes, placeholder: Bytes, at: nat, one: string, two: string,
      mined: Bytes)
    requires SplitCoinbase(coinbase, placeholder).Some? && OccursAt(coinbase, placeholder, at)
    requires ReadsBack(reread, coinbase, placeholder, at)
    requires |one| + |two| == 2 * |placeholder| && Plain(one) && Plain(two)
    requires var s := SplitCoinbase(coinbase, placeholder).value;
             AssembleCoinbase(s.coinb1, one, two, s.coinb2) == Ok(mined)
    ensures reread(mined) == mined
  {
    AssembledSize(coinbase, placeholder, one, two, at);
    ExtranonceReplacesPlaceholder(coinbase, placeholder, one, two, at);
    FromHexSize(one);
    FromHexSize(two);
    SameAround(coinbase[..at], FromHex(one).value + (FromHex(two).value + coinbase[at + |placeholder|..]),
               FromHex(one).value, FromHex(two).value, coinbase[at + |placeholder|..]);
  }

  /** `build_submission` rebuilds the block from the same template, with the coinbase read back from
      the bytes the miner assembled. With extranonces of digits only, an 80-byte header carries exactly
      the Merkle root of that block's transactions. */
  lemma HeaderCommitsToSubmission(hash: Bytes -> Bytes, reread: Bytes -> Bytes, template: Template, at: nat, job: Job,
      one: string, two: string, f: Fields, header: Bytes)
    requires MadeOf(hash, template, job) && OccursAt(template.coinbase, template.placeholder, at)
    requires ReadsBack(reread, template.coinbase, template.placeholder, at) && |header| == 80
    requires |one| + |two| == 2 * |template.placeholder| && Plain(one) && Plain(two)
    ensures var mined := AssembleCoinbase(job.split.coinb1, one, two, job.split.coinb2);
            mined.Ok? && SerializeHeader(f, Fold(Pair(hash), hash(mined.value), job.branch)) == Ok(header) ==>
              RootField(header) == TreeRoot(hash, Txids(hash, [reread(mined.value)] + template.rest))
  {
    var mined := AssembleCoinbase(job.split.coinb1, one, two, job.split.coinb2);
    if mined.Err? {
      return;
    }
    var coinbase, placeholder := template.coinbase, template.placeholder;
    RereadAsItself(reread, coinbase, placeholder, at, one, two, mined.value);
    HeaderCommitsToCoinbase(hash, coinbase, template.rest, placeholder, template.display, job, mined.value, f, header);
  }

  lemma SameAround(front: Bytes, end: Bytes, one: Bytes, two: Bytes, back: Bytes)
    requires end == one + (two + back)
    ensures (front + end)[..|front|] == front && (front + end)[|front| + |one| + |two|..] == back
  {
  }

  /** The block template a job was made of. */
  datatype Template = Template(coinbase: Bytes, rest: seq<Bytes>, placeholder: Bytes, display: string)

  ghost predicate MadeOf(hash: Bytes -> Bytes, template: Template, job: Job) {
    IsJob(hash, template.coinbase, template.rest, template.placeholder, template.display, job)
  }

  /** `assemble_header`. It refuses exactly text that is not hexadecimal, a field of the wrong length,
      and fields that white space leaves short of whole words. Of a job made of a template, an 80-byte
      header carries the Merkle root of the template's transactions behind the assembled coinbase. */
  method AssembleHeader(hash: Bytes -> Bytes, job: Job, one: string, two: string, nonce: string, ntime: string,
      version: string)
      returns (r: Result<(Bytes, Bytes), Error>)
    ensures var coinbase := AssembleCoinbase(job.split.coinb1, one, two, job.split.coinb2);
            var fields := Fields(version, job.prevhash, ntime, job.nbits, nonce);
            && (coinbase.Ok? <==>
                HexText(job.split.coinb1) && HexText(one) && HexText(two) && HexText(job.split.coinb2))
            && (coinbase.Err? ==> r == Err(coinbase.error))
            && (coinbase.Ok? ==>
                  var root := Fold(Pair(hash), hash(coinbase.value), job.branch);
                  && (r.Ok? <==> fields.Accepted() && |root| == 32 && WholeWords(Bytewise(fields)))
                  && (r.Err? ==> SerializeHeader(fields, root) == Err(r.error))
                  && (r.Ok? ==> r.value.0 == coinbase.value && SerializeHeader(fields, root) == Ok(r.value.1))
                  && (r.Ok? && |r.value.1| == 80 ==> IsHeader(r.value.1, fields, root)))
    ensures r.Ok? && |r.value.1| == 80 ==>
              forall template :: MadeOf(hash, template, job) ==>
                RootField(r.value.1) == TreeRoot(hash, Txids(hash, [r.value.0] + template.rest))
  {
    AssembledExactly(job.split.coinb1, one, two, job.split.coinb2);
    var coinbase := AssembleCoinbase(job.split.coinb1, one, two, job.split.coinb2);
    if coinbase.Err? {
      return Err(coinbase.error);
    }
    var root := FoldBranch(Pair(hash), hash(coinbase.value), job.branch);
    var fields := Fields(version, job.prevhash, ntime, job.nbits, nonce);
    SerializeExactly(fields, root);
    var header := SerializeHeader(fields, root);
    if header.Err? {
      return Err(header.error);
    }
    r := Ok((coinbase.value, header.value));
    if |header.value| == 80 {
      CanonicalIsFull(fields, root);
      CanonicalBytes(fields, root);
      forall template | MadeOf(hash, template, job)
        ensures RootField(header.value) == TreeRoot(hash, Txids(hash, [coinbase.value] + template.rest))
      {
        HeaderCommitsToCoinbase(hash, template.coinbase, template.rest, template.placeholder, template.display, job,
                                coinbase.value, fields, header.value);
      }
    }
  }

  // ----- the other builder

  /** The branch as a notify sends it. */
  function NotifiedBranch(branch: seq<Bytes>): seq<string> {
    seq(|branch|, i requires 0 <= i < |branch| => ToHex(branch[i]))
  }

  function ReadBranch(texts: seq<string>): Option<seq<Bytes>> {
    if texts == [] then Some([])
    else
      match (FromHex(texts[0]), ReadBranch(texts[1..]))
      case (Some(first), Some(rest)) => Some([first] + rest)
      case _ => None
  }

  lemma {:induction false} BranchReadBack(branch: seq<Bytes>)
    ensures ReadBranch(NotifiedBranch(branch)) == Some(branch)
  {
    if branch != [] {
      HexRoundTrip(branch[0]);
      BranchReadBack(branch[1..]);
      assert NotifiedBranch(branch)[1..] == NotifiedBranch(branch[1..]);
      assert branch == [branch[0]] + branch[1..];
    }
  }

  /** `block_header` of scripts/prism_shipped_image_lane.py, from a notify's texts on. */
  function NotifyHeader(hash: Bytes -> Bytes, coinb1: string, one: Bytes, two: Bytes, coinb2: string,
      branch: seq<string>,
      f: Fields, nonce: nat): Option<Bytes>
    requires Plain(f.version) && Plain(f.ntime) && Plain(f.nbits)
  {
    match (FromHex(coinb1), FromHex(coinb2), ReadBranch(branch))
    case (Some(first), Some(last), Some(siblings)) =>
      BlockHeader(f, Fold(Pair(hash), hash(first + (one + (two + last))), siblings), nonce)
    case _ => None
  }

  /** The two builders agree from the notify on: on every 80-byte header the server assembles for the
      job's own version and time. */
  lemma NotifiedBuildersAgree(hash: Bytes -> Bytes, job: Job, one: string, two: string, nonce: string)
    ensures var f := Fields(job.version, job.prevhash, job.ntime, job.nbits, nonce);
            var mined := AssembleCoinbase(job.split.coinb1, one, two, job.split.coinb2);
            mined.Ok? ==>
              var header := SerializeHeader(f, Fold(Pair(hash), hash(mined.value), job.branch));
              header.Ok? && |header.value| == 80 ==>
                && f.AllDigits() && FromHex(one).Some? && FromHex(two).Some?
                && NotifyHeader(hash, job.split.coinb1, FromHex(one).value, FromHex(two).value, job.split.coinb2,
                                NotifiedBranch(job.branch), f, Value(nonce)) == Some(header.value)
  {
    var mined := AssembleCoinbase(job.split.coinb1, one, two, job.split.coinb2);
    if mined.Ok? {
      Assembled(job.split.coinb1, one, two, job.split.coinb2);
      BranchReadBack(job.branch);
      BuildersAgree(Fields(job.version, job.prevhash, job.ntime, job.nbits, nonce),
                    Fold(Pair(hash), hash(mined.value), job.branch));
    }
  }
}
