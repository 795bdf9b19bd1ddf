/** The receipts that decide whether a pipeline run normalizes and analyzes again (`pipeline.py`), as
    a state machine over durable writes. A normalizer is deterministic per file: what it writes is what
    the file's raw output yields under its parser, and each file's rows are replaced in one
    transaction. A file without raw output keeps the rows it had. */
module StageReceipts {

  type Parser = string

  type Rules = string

  /** The normalized rows of one file. */
  type Rows = seq<string>

  /** The normalized rows of every file that has some. */
  type Evidence = map<string, Rows>

  /** What a file's raw output yields under a parser revision. */
  type Normalizer = (Parser, string) -> Rows

  function RowsOf(rows: Evidence, f: string): Rows { if f in rows then rows[f] else [] }

  /** All rows of one file replaced. */
  function Put(rows: Evidence, f: string, x: Rows): Evidence {
    if x == [] then rows - {f} else rows[f := x]
  }

  /** A row of the source table, as far as the revision looks at it. */
  datatype Status = Status(state: string, rowCount: nat)

  predicate Ready(s: Status) { s.state in {"normalized", "empty"} }

  predicate Broken(state: string) { state in {"failed", "partial"} }

  /** The source row after one more registration: a broken attempt keeps the count there was. */
  function Merged(statuses: map<string, Status>, f: string, now: Status): Status {
    if Broken(now.state) && f in statuses && statuses[f].rowCount > 0
    then now.(rowCount := statuses[f].rowCount)
    else now
  }

  /** What the normalize stage fingerprints. */
  datatype Revision = Revision(parser: Parser, statuses: map<string, Status>, files: set<string>)

  datatype NormalizeReceipt = NoReceipt | PendingReplacement | Completed(revision: Revision)

  datatype AnalyzeReceipt = NotCompleted | Analyzed(rules: Rules)

  /** Findings are the result of a finished analysis, named by the rows and rules it was computed from,
      or what an unfinished one left. */
  datatype Findings = Result(evidence: Evidence, rules: Rules) | Unfinished(left: nat)

  /** What survives a crash. `raw` is whether the raw directory holds anything. `foreign` is a ghost of
      history: since the last completed normalize receipt some other parser revision has started to
      rewrite the evidence. */
  datatype Durable = Durable(files: set<string>, statuses: map<string, Status>, rows: Evidence, raw: bool,
                             normalized: NormalizeReceipt, analyzed: AnalyzeReceipt, findings: Findings, foreign: bool)

  /** Where the running process is. */
  datatype Stage =
    | Idle
    | Ingesting(added: set<string>)
    | Normalizing(keys: set<string>, superseded: set<string>)
    | Measuring(keys: set<string>, superseded: set<string>)
    | Retiring(superseded: set<string>)
    | Normalized(init: bool)
    | Deciding(init: bool)
    | Analyzing

  datatype State = State(d: Durable, stage: Stage, parser: Parser, rules: Rules, rerun: bool)

  function RevisionOf(d: Durable, parser: Parser): Revision {
    Revision(parser, d.statuses, d.files)
  }

  /** `_sources_normalized` */
  predicate SourcesNormalized(files: set<string>, statuses: map<string, Status>) {
    forall f | f in files :: f in statuses && Ready(statuses[f])
  }

  /** The normalize receipt covers the sources as they are. */
  predicate NormalizeCurrent(d: Durable, parser: Parser) {
    && d.normalized == Completed(RevisionOf(d, parser))
    && SourcesNormalized(d.files, d.statuses)
  }

  /** The keys of a normalization: the added ones only under the parser of a completed receipt. */
  function KeysFor(d: Durable, parser: Parser, added: set<string>): set<string> {
    if added == {} || !d.normalized.Completed? || d.normalized.revision.parser != parser then d.files else added
  }

  function StartsForeign(d: Durable, parser: Parser): bool {
    d.foreign || (d.normalized.Completed? && d.normalized.revision.parser != parser)
  }

  /** The file's rows are those its raw output yields under the running parser. */
  predicate Fresh(norm: Normalizer, s: State, f: string) { RowsOf(s.d.rows, f) == norm(s.parser, f) }

  /** Of every key the adapters left fresh rows, or a source that is not ready. A registry file that is
      missing or malformed keeps its old rows and becomes failed or partial, and the stage goes on. */
  predicate AdaptersDone(norm: Normalizer, s: State, keys: set<string>) {
    forall f | f in keys :: Fresh(norm, s, f) || !(f in s.d.statuses && Ready(s.d.statuses[f]))
  }

  /** The state a file-based source is registered with: rows make it normalized, wherever they come
      from; without rows it is empty if its raw file is there and empty, and failed otherwise. */
  predicate Measures(norm: Normalizer, s: State, f: string, status: Status) {
    var n := |RowsOf(s.d.rows, f)|;
    if n > 0 then status == Status("normalized", n)
    else status == Status("failed", 0) || (status == Status("empty", 0) && Fresh(norm, s, f))
  }

  // ---------------------------------------------------------------- steps

  // `NormalizeFile` and `ProjectSource` are not restricted to the keys: a registry dataset is
  // normalized with all its members as soon as one of them is a key. `FailSource` is both a failed
  // registry outcome and the registration of the sources of a raising adapter. `RawOutput` is
  // whatever else fills or empties the raw directory.

  datatype Step =
    | Reset
    | RawOutput(present: bool)
    | Launch(parser: Parser, rules: Rules, rerun: bool, input: bool, superseded: set<string>)
    | IngestFile(file: string, status: Status)
    | DisturbSource(source: string, status: Status)
    | EndIngest(superseded: set<string>)
    | NormalizeFile(file: string)
    | FailSource(source: string, status: Status)
    | ProjectSource(file: string, status: Status)
    | EndAdapters
    | MeasureFile(file: string, status: Status)
    | EndMeasuring
    | RetireSource(file: string)
    | EndNormalize
    | DecideAnalysis
    | AnalyzeSome(left: nat)
    | EndAnalysis
    | Crash

  predicate BeginNormalize(s: State, added: set<string>, superseded: set<string>, t: State) {
    t == s.(stage := Normalizing(KeysFor(s.d, s.parser, added), superseded * s.d.files),
            d := s.d.(foreign := StartsForeign(s.d, s.parser)))
  }

  /** The choice of stages without an input directory. */
  predicate WithoutInput(s: State, superseded: set<string>, t: State) {
    if s.d.raw && (s.rerun || !NormalizeCurrent(s.d, s.parser)) then
      BeginNormalize(s.(rerun := true), {}, superseded, t)
    else if s.d.analyzed != Analyzed(s.rules) then t == s.(stage := Analyzing, d := s.d.(analyzed := NotCompleted))
    else t == s.(stage := Idle)
  }

  predicate Next(norm: Normalizer, s: State, step: Step, t: State) {
    match step
    case Reset =>
      s.stage == Idle
      && t == s.(d := s.d.(rows := map[], normalized := NoReceipt, analyzed := NotCompleted, findings := Unfinished(0),
                           foreign := false))
    case RawOutput(present) => t == s.(d := s.d.(raw := present))
    case Launch(parser, rules, rerun, input, superseded) =>
      s.stage == Idle
      && var u := State(s.d, Idle, parser, rules, rerun);
         if input then t == u.(stage := Ingesting({})) else WithoutInput(u, superseded, t)
    case IngestFile(f, status) =>
      s.stage.Ingesting? && !Ready(status)
      && t == s.(stage := Ingesting(s.stage.added + {f}),
                 d := s.d.(files := s.d.files + {f}, statuses := s.d.statuses[f := status], raw := true))
    case DisturbSource(f, status) =>
      s.stage.Ingesting? && (f in s.d.files ==> !Ready(status))
      && t == s.(d := s.d.(statuses := s.d.statuses[f := status]))
    case EndIngest(superseded) =>
      s.stage.Ingesting?
      && if !s.rerun && s.stage.added == {} && NormalizeCurrent(s.d, s.parser) then t == s.(stage := Deciding(false))
         else BeginNormalize(s, s.stage.added, superseded, t)
    case NormalizeFile(f) =>
      s.stage.Normalizing? && f in s.d.files
      && t == s.(d := s.d.(rows := Put(s.d.rows, f, norm(s.parser, f))))
    case FailSource(f, status) =>
      s.stage.Normalizing? && !Ready(status)
      && t == s.(d := s.d.(statuses := s.d.statuses[f := status]))
    case ProjectSource(f, status) =>
      s.stage.Normalizing? && Fresh(norm, s, f)
      && t == s.(d := s.d.(statuses := s.d.statuses[f := status]))
    case EndAdapters =>
      s.stage.Normalizing?
      && t == s.(stage := Measuring(s.stage.keys, s.stage.superseded))
    case MeasureFile(f, status) =>
      s.stage.Measuring? && f in s.stage.keys && Measures(norm, s, f, status)
      && t == s.(d := s.d.(statuses := s.d.statuses[f := Merged(s.d.statuses, f, status)]))
    case EndMeasuring =>
      s.stage.Measuring?
      && t == s.(stage := Retiring(s.stage.superseded),
                 d := if s.stage.superseded != {} then s.d.(normalized := PendingReplacement) else s.d)
    case RetireSource(f) =>
      s.stage.Retiring? && f in s.stage.superseded
      && t == s.(d := s.d.(files := s.d.files - {f}, statuses := s.d.statuses - {f}, rows := s.d.rows - {f}))
    case EndNormalize =>
      s.stage.Retiring?
      && t == s.(stage := Normalized(s.rerun),
                 d := s.d.(normalized := Completed(RevisionOf(s.d, s.parser)), foreign := false))
    case DecideAnalysis =>
      (s.stage.Normalized? || s.stage.Deciding?)
      && if s.stage.Deciding? && !s.stage.init && s.d.analyzed == Analyzed(s.rules) then t == s.(stage := Idle)
         else t == s.(stage := Analyzing, d := s.d.(analyzed := NotCompleted))
    case AnalyzeSome(left) => s.stage.Analyzing? && t == s.(d := s.d.(findings := Unfinished(left)))
    case EndAnalysis =>
      s.stage.Analyzing?
      && t == s.(stage := Idle, d := s.d.(findings := Result(s.d.rows, s.rules), analyzed := Analyzed(s.rules)))
    case Crash => t == s.(stage := Idle)
  }

  /** The run leaves the analysis of earlier runs in place. */
  predicate Skips(s: State, step: Step, t: State) {
    (step.DecideAnalysis? || (step.Launch? && !step.input)) && t.stage == Idle
  }

  // ---------------------------------------------------------------- the four windows

  /** A stop after the completed normalize receipt and before the analysis is marked as running. */
  predicate StopsUnanalyzed(s: State, step: Step) {
    step.Crash? && s.stage.Normalized?
  }

  /** A return to the parser of the completed receipt after another one has begun rewriting. */
  predicate ReturnsToReceipt(s: State, step: Step) {
    step.Launch? && s.d.foreign && s.d.normalized.Completed? && s.d.normalized.revision.parser == step.parser
  }

  /** A normalization that goes on over old rows: a key whose raw output is missing keeps the rows it
      had, and its source is or becomes ready all the same. */
  predicate KeepsOldRows(norm: Normalizer, s: State, step: Step) {
    match step
    case EndAdapters => s.stage.Normalizing? && !AdaptersDone(norm, s, s.stage.keys)
    case MeasureFile(f, status) => Ready(status) && !Fresh(norm, s, f)
    case _ => false
  }

  /** A run without input that finds no raw output at all, and so does not look at the normalize
      receipt, although that is not current and the case was worked on. */
  predicate IgnoresReceipt(s: State, step: Step) {
    step.Launch? && !step.input && !s.d.raw && !NormalizeCurrent(s.d, step.parser)
    && !(s.d.files == {} && s.d.normalized.NoReceipt?)
  }

  predicate InWindow(norm: Normalizer, s: State, step: Step) {
    StopsUnanalyzed(s, step) || ReturnsToReceipt(s, step) || KeepsOldRows(norm, s, step) || IgnoresReceipt(s, step)
  }

  // ---------------------------------------------------------------- whole histories

  datatype Run = Run(states: seq<State>, steps: seq<Step>) {
    predicate Valid(norm: Normalizer) {
      && |states| == |steps| + 1
      && forall i | 0 <= i < |steps| :: Next(norm, states[i], steps[i], states[i + 1])
    }

    /** No stop between the completed normalize receipt and the start of the analysis, no return to the
        receipt's parser after another one began to rewrite the evidence, no normalization over rows
        that stayed for want of raw output, and no run that ignores the receipt for want of any. */
    predicate AvoidsWindows(norm: Normalizer)
      requires |states| == |steps| + 1
    {
      forall i | 0 <= i < |steps| :: !InWindow(norm, states[i], steps[i])
    }

    /** The rows the last analysis before this point was completed on. */
    function LastAnalyzed(n: nat): Evidence
      requires n <= |steps| < |states|
    {
      if n == 0 then map[]
      else if steps[n - 1].EndAnalysis? then states[n - 1].d.rows
      else LastAnalyzed(n - 1)
    }
  }

  /** A case nothing was ever done to. */
  predicate New(s: State) {
    s.stage == Idle && s.d == Durable({}, map[], map[], false, NoReceipt, NotCompleted, Unfinished(0), false)
  }
}
