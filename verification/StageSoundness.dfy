/** What the receipts guarantee (`pipeline.py`): exactly when a skipped analysis is up to date, over every
    history; and an invariant of every step outside the four windows, from which it always is. */
module StageSoundness {
  import opened StageReceipts

  // ---------------------------------------------------------------- every history

  /** What holds whatever happens: a completed analysis receipt is of the last analysis, and the receipt
      of a normalization just finished is of the sources as they are. */
  predicate Always(s: State, last: Evidence) {
    && (s.d.analyzed.Analyzed? ==> s.d.findings == Result(last, s.d.analyzed.rules))
    && (s.stage.Analyzing? ==> s.d.analyzed == NotCompleted)
    && (s.stage.Normalized? ==> s.d.normalized == Completed(RevisionOf(s.d, s.parser)))
    && (s.stage.Deciding? ==> NormalizeCurrent(s.d, s.parser))
  }

  lemma AlwaysKept(norm: Normalizer, s: State, step: Step, t: State, last: Evidence)
    requires Next(norm, s, step, t) && Always(s, last)
    ensures Always(t, if step.EndAnalysis? then s.d.rows else last)
  {}

  lemma AlwaysAtFirst(s: State)
    requires New(s)
    ensures Always(s, map[])
  {}

  lemma {:induction false} AlwaysHolds(norm: Normalizer, r: Run, n: nat)
    requires r.Valid(norm) && New(r.states[0]) && n <= |r.steps|
    ensures Always(r.states[n], r.LastAnalyzed(n))
  {
    hide Next, Always;
    if n == 0 {
      AlwaysAtFirst(r.states[0]);
    } else {
      AlwaysHolds(norm, r, n - 1);
      AlwaysKept(norm, r.states[n - 1], r.steps[n - 1], r.states[n], r.LastAnalyzed(n - 1));
    }
  }

  /** Exactly when a skipped analysis is up to date, in every history, whatever stopped, failed or was
      missing in it: if the rows are those of the last completed analysis. Unless the raw directory is
      empty, no ingested source is a failed one then in any case. */
  lemma SkipIsCurrentIff(norm: Normalizer, r: Run, n: nat)
    requires r.Valid(norm) && New(r.states[0])
    requires n < |r.steps| && Skips(r.states[n], r.steps[n], r.states[n + 1])
    ensures var t := r.states[n + 1];
            && (t.d.raw || r.steps[n].DecideAnalysis? ==> SourcesNormalized(t.d.files, t.d.statuses))
            && (t.d.findings == Result(t.d.rows, t.rules) <==> t.d.rows == r.LastAnalyzed(n))
  {
    AlwaysHolds(norm, r, n);
  }

  // ---------------------------------------------------------------- outside the windows

  /** The rows that files with a ready source have under one parser. */
  predicate RowsBy(norm: Normalizer, d: Durable, parser: Parser) {
    forall f | f in d.files && f in d.statuses && Ready(d.statuses[f]) :: RowsOf(d.rows, f) == norm(parser, f)
  }

  function Canonical(norm: Normalizer, files: set<string>, parser: Parser): Evidence {
    map f | f in files && norm(parser, f) != [] :: norm(parser, f)
  }

  /** Under a completed receipt the ready files have the rows of its parser, unless another parser
      has begun to rewrite them. */
  predicate RowsKnown(norm: Normalizer, d: Durable) {
    d.normalized.Completed? && !d.foreign ==> RowsBy(norm, d, d.normalized.revision.parser)
  }

  /** Findings of a completed analysis under a receipt of ready sources are those of its rows. */
  predicate FindingsKnown(norm: Normalizer, d: Durable) {
    d.normalized.Completed? && d.analyzed.Analyzed?
    && SourcesNormalized(d.normalized.revision.files, d.normalized.revision.statuses)
    ==> d.findings ==
        Result(Canonical(norm, d.normalized.revision.files, d.normalized.revision.parser), d.analyzed.rules)
  }

  /** Before anything was normalized, only nothing is analyzed. */
  predicate NothingWithoutReceipt(d: Durable) {
    d.normalized.NoReceipt? && d.analyzed.Analyzed? ==> d.findings == Result(map[], d.analyzed.rules)
  }

  predicate Untouched(d: Durable) { d.files == {} && d.normalized.NoReceipt? }

  /** The keys under way are all files, or everything else is known already. */
  predicate KeysEnough(s: State, keys: set<string>) {
    && keys <= s.d.files
    && (keys == s.d.files || (s.d.normalized.Completed? && s.d.normalized.revision.parser == s.parser && !s.d.foreign))
    && (s.d.normalized.Completed? && s.d.normalized.revision.parser != s.parser ==> s.d.foreign)
  }

  predicate StageInvariant(norm: Normalizer, s: State) {
    match s.stage
    case Idle => FindingsKnown(norm, s.d)
    case Ingesting(added) => FindingsKnown(norm, s.d) && added <= s.d.files && !ReturnedTo(s)
    case Normalizing(keys, superseded) => FindingsKnown(norm, s.d) && KeysEnough(s, keys)
    case Measuring(keys, superseded) =>
      FindingsKnown(norm, s.d) && KeysEnough(s, keys) && AdaptersDone(norm, s, keys)
    case Retiring(superseded) => FindingsKnown(norm, s.d) && RowsBy(norm, s.d, s.parser)
    case Normalized(init) => s.d.normalized == Completed(RevisionOf(s.d, s.parser)) && !s.d.foreign
    case Deciding(init) => FindingsKnown(norm, s.d) && NormalizeCurrent(s.d, s.parser) && !s.d.foreign
    case Analyzing =>
      s.d.analyzed == NotCompleted
      && (Untouched(s.d) || (s.d.normalized == Completed(RevisionOf(s.d, s.parser)) && !s.d.foreign))
  }

  predicate ReturnedTo(s: State) {
    s.d.foreign && s.d.normalized.Completed? && s.d.normalized.revision.parser == s.parser
  }

  predicate Invariant(norm: Normalizer, s: State) {
    && s.d.rows.Keys <= s.d.files && (forall f | f in s.d.rows :: s.d.rows[f] != [])
    && RowsKnown(norm, s.d) && NothingWithoutReceipt(s.d) && StageInvariant(norm, s)
  }

  /** The findings are those of the current rules on the current evidence, of ready sources only. */
  predicate UpToDate(s: State) {
    s.d.findings == Result(s.d.rows, s.rules) && SourcesNormalized(s.d.files, s.d.statuses)
  }

  lemma CurrentRows(norm: Normalizer, s: State)
    requires Invariant(norm, s) && NormalizeCurrent(s.d, s.parser) && !s.d.foreign
    ensures s.d.rows == Canonical(norm, s.d.files, s.parser)
  {
    forall f | f in s.d.files ensures RowsOf(s.d.rows, f) == norm(s.parser, f) { assert Ready(s.d.statuses[f]); }
  }

  lemma LaunchKeeps(norm: Normalizer, s: State, step: Step, t: State)
    requires step.Launch? && Next(norm, s, step, t) && Invariant(norm, s)
    requires !ReturnsToReceipt(s, step) && !IgnoresReceipt(s, step)
    ensures Invariant(norm, t) && (Skips(s, step, t) ==> UpToDate(t))
  {
    var u := State(s.d, Idle, step.parser, step.rules, step.rerun);
    assert Invariant(norm, u);
    if !step.input && !(u.d.raw && (u.rerun || !NormalizeCurrent(u.d, u.parser))) {
      if NormalizeCurrent(u.d, u.parser) { CurrentRows(norm, u); }
    }
  }

  lemma EndAnalysisKeeps(norm: Normalizer, s: State, t: State)
    requires Next(norm, s, EndAnalysis, t) && Invariant(norm, s)
    ensures Invariant(norm, t)
  {
    if !Untouched(s.d) && SourcesNormalized(s.d.files, s.d.statuses) { CurrentRows(norm, s); }
  }

  lemma DecideKeeps(norm: Normalizer, s: State, t: State)
    requires Next(norm, s, DecideAnalysis, t) && Invariant(norm, s)
    ensures Invariant(norm, t) && (Skips(s, DecideAnalysis, t) ==> UpToDate(t))
  {
    if s.stage.Deciding? { CurrentRows(norm, s); }
  }

  lemma StepKeeps(norm: Normalizer, s: State, step: Step, t: State)
    requires Next(norm, s, step, t) && Invariant(norm, s)
    requires !InWindow(norm, s, step)
    ensures Invariant(norm, t)
    ensures Skips(s, step, t) ==> UpToDate(t)
  {
    hide Next, Invariant, UpToDate;
    match step
    case Launch(_, _, _, _, _) => LaunchKeeps(norm, s, step, t);
    case EndAnalysis => EndAnalysisKeeps(norm, s, t);
    case DecideAnalysis => DecideKeeps(norm, s, t);
    case Reset => OutsideKeeps(norm, s, step, t);
    case Crash => OutsideKeeps(norm, s, step, t);
    case RawOutput(_) => OutsideKeeps(norm, s, step, t);
    case AnalyzeSome(_) => OutsideKeeps(norm, s, step, t);
    case IngestFile(_, _) => IngestKeeps(norm, s, step, t);
    case DisturbSource(_, _) => IngestKeeps(norm, s, step, t);
    case EndIngest(_) => IngestKeeps(norm, s, step, t);
    case MeasureFile(_, _) => MeasureKeeps(norm, s, step, t);
    case EndMeasuring => MeasureKeeps(norm, s, step, t);
    case RetireSource(_) => RetireKeeps(norm, s, step, t);
    case EndNormalize => RetireKeeps(norm, s, step, t);
    case _ => AdaptKeeps(norm, s, step, t);
  }

  lemma OutsideKeeps(norm: Normalizer, s: State, step: Step, t: State)
    requires step.Reset? || step.Crash? || step.RawOutput? || step.AnalyzeSome?
    requires Next(norm, s, step, t) && Invariant(norm, s) && !StopsUnanalyzed(s, step)
    ensures Invariant(norm, t)
  {}

  lemma IngestKeeps(norm: Normalizer, s: State, step: Step, t: State)
    requires step.IngestFile? || step.DisturbSource? || step.EndIngest?
    requires Next(norm, s, step, t) && Invariant(norm, s)
    ensures Invariant(norm, t)
  {}

  lemma AdaptKeeps(norm: Normalizer, s: State, step: Step, t: State)
    requires step.NormalizeFile? || step.FailSource? || step.ProjectSource? || step.EndAdapters?
    requires Next(norm, s, step, t) && Invariant(norm, s) && !KeepsOldRows(norm, s, step)
    ensures Invariant(norm, t)
  {}

  lemma MeasureKeeps(norm: Normalizer, s: State, step: Step, t: State)
    requires step.MeasureFile? || step.EndMeasuring?
    requires Next(norm, s, step, t) && Invariant(norm, s) && !KeepsOldRows(norm, s, step)
    ensures Invariant(norm, t)
  {}

  lemma RetireKeeps(norm: Normalizer, s: State, step: Step, t: State)
    requires step.RetireSource? || step.EndNormalize?
    requires Next(norm, s, step, t) && Invariant(norm, s)
    ensures Invariant(norm, t)
  {}

  /** Soundness of the analysis cache: in every history outside the four windows, with crashes anywhere
      else, adapters that raise half way and registry files that cannot be read, whenever the analysis
      is skipped the findings are the result of the current rules on the current evidence, and no
      ingested source is a failed one. */
  lemma {:induction false} SkippedAnalysisIsCurrent(norm: Normalizer, r: Run, n: nat)
    requires r.Valid(norm) && New(r.states[0]) && r.AvoidsWindows(norm)
    requires n < |r.steps| && Skips(r.states[n], r.steps[n], r.states[n + 1])
    ensures UpToDate(r.states[n + 1])
  {
    for i := 0 to n
      invariant Invariant(norm, r.states[i])
    {
      StepKeeps(norm, r.states[i], r.steps[i], r.states[i + 1]);
    }
    StepKeeps(norm, r.states[n], r.steps[n], r.states[n + 1]);
  }
}
