/** The rows of scripts/prism_load_trend.py and their identities. */
module TrendRows {
  import opened Results

  datatype Kind = Preset | Missing | Job | Promotion | OtherKind(name: string)

  datatype Row = Row(
      kind: Kind,
      lane: string,
      month: string,
      repository: string,
      runId: int,
      runAttempt: int,
      preset: Option<string>,
      job: Option<string>,
      result: Option<string>,
      commit: Option<string>,
      promoted: bool,
      assetUrl: Option<string>,
      cited: string,
      rest: string)

  datatype Identity =
    | PresetRun(kind: Kind, repository: string, runId: int, runAttempt: int, preset: Option<string>)
    | JobRun(repository: string, runId: int, runAttempt: int, job: Option<string>, result: Option<string>,
             commit: Option<string>)
    | OtherRun(kind: Kind, repository: string, runId: int, runAttempt: int, preset: Option<string>,
               assetUrl: Option<string>)

  /** `identity` */
  function Id(r: Row): Identity {
    match r.kind
    case Preset => PresetRun(Preset, r.repository, r.runId, r.runAttempt, r.preset)
    case Missing => PresetRun(Missing, r.repository, r.runId, r.runAttempt, r.preset)
    case Job => JobRun(r.repository, r.runId, r.runAttempt, r.job, r.result, r.commit)
    case _ => OtherRun(r.kind, r.repository, r.runId, r.runAttempt, r.preset, r.assetUrl)
  }

  /** The promotion row a promoted preset row would leave: it keeps what cites the bundle. */
  function PromotionOf(r: Row): Row {
    r.(kind := Promotion, job := None, result := None, rest := "")
  }

  predicate HasAsset(r: Row) {
    r.kind.Preset? && r.promoted && r.assetUrl.Some? && r.assetUrl.value != ""
  }

  /** `recovered_promotion` */
  function Recovered(r: Row, recorded: Row): Option<Row> {
    if !HasAsset(r) || recorded.assetUrl == r.assetUrl then None else Some(PromotionOf(r))
  }

  /** The rows are of one kind and one attempt of one run, and agree in what tells such rows apart. */
  predicate Agree(a: Row, b: Row) {
    && a.kind == b.kind && a.repository == b.repository && a.runId == b.runId && a.runAttempt == b.runAttempt
    && if a.kind == Job then a.job == b.job && a.result == b.result && a.commit == b.commit
       else a.preset == b.preset && (a.kind == Preset || a.kind == Missing || a.assetUrl == b.assetUrl)
  }

  /** Rows are one record exactly when they agree. */
  lemma OneRecord(a: Row, b: Row)
    ensures Id(a) == Id(b) <==> Agree(a, b)
  {
  }

  /** `p` cites the bundle of the preset row `r`, which was promoted. */
  predicate Cites(p: Row, r: Row) {
    && p.kind == Promotion && r.kind == Preset && r.promoted && r.assetUrl.Some? && r.assetUrl.value != ""
    && p.repository == r.repository && p.runId == r.runId && p.runAttempt == r.runAttempt
    && p.preset == r.preset && p.assetUrl == r.assetUrl
  }

  /** And is written where, and when, `r` was recorded, with all of it that cites the bundle. */
  predicate CitesWholly(p: Row, r: Row) {
    && Cites(p, r) && p.lane == r.lane && p.month == r.month && p.commit == r.commit && p.cited == r.cited
    && p.promoted && p.job == None && p.result == None && p.rest == ""
  }

  /** A promotion is recovered exactly for a promoted row whose recorded copy has another asset. */
  lemma RecoveredExactly(r: Row, recorded: Row)
    ensures Recovered(r, recorded).Some?
       <==> && r.kind == Preset && r.promoted && r.assetUrl.Some? && r.assetUrl.value != ""
            && recorded.assetUrl != r.assetUrl
    ensures Recovered(r, recorded).Some? ==> CitesWholly(Recovered(r, recorded).value, r)
  {
  }

  lemma PromotionsDiffer(a: Row, b: Row)
    requires HasAsset(a) && HasAsset(b) && Id(PromotionOf(a)) == Id(PromotionOf(b))
    ensures Id(a) == Id(b)
  {
  }
}
