/** The four windows in which a run skips an analysis it should repeat are real, and each suffices
    alone (`pipeline.py`). */
module StageWindows {
  import opened StageReceipts
  import opened StageSoundness

  /** Skipping then keeps findings that are not the result of the current evidence. */
  predicate StaleSkip(norm: Normalizer, s: State, step: Step, t: State) {
    Next(norm, s, step, t) && Skips(s, step, t) && t.d.findings != Result(t.d.rows, t.rules)
  }

  /** Exactly when a stop after the completed normalize receipt hides evidence: the next run skips over
      it if and only if every source is ready or no raw output is left, a completed analysis is of the
      same rules, and the rows are no longer those it was completed on. The history before is arbitrary. */
  lemma StopHidesNewEvidence(norm: Normalizer, r: Run, n: nat, t: State)
    requires r.Valid(norm) && New(r.states[0]) && n <= |r.steps| && r.states[n].stage.Normalized?
    requires var s := r.states[n]; Next(norm, s.(stage := Idle), Launch(s.parser, s.rules, false, false, {}), t)
    ensures var s := r.states[n];
            && StopsUnanalyzed(s, Crash) && Next(norm, s, Crash, s.(stage := Idle))
            && (StaleSkip(norm, s.(stage := Idle), Launch(s.parser, s.rules, false, false, {}), t)
                <==> && (s.d.raw ==> SourcesNormalized(s.d.files, s.d.statuses))
                     && s.d.analyzed == Analyzed(s.rules) && s.d.rows != r.LastAnalyzed(n))
  {
    AlwaysHolds(norm, r, n);
  }

  /** Going back to the parser of the receipt after another one rewrote a file and stopped finds every
      source as recorded, and skips over the foreign rows. */
  lemma ReturnHidesForeignRows(norm: Normalizer, s: State, f: string, other: Parser)
    requires s.stage == Idle && Invariant(norm, s) && !s.d.foreign && s.d.raw && NormalizeCurrent(s.d, s.parser)
    requires s.d.analyzed == Analyzed(s.rules) && f in s.d.files && norm(other, f) != norm(s.parser, f)
    ensures var begun := s.(stage := Normalizing(s.d.files, {}), parser := other, rerun := true,
                            d := s.d.(foreign := true));
            var wrote := begun.(d := begun.d.(rows := Put(begun.d.rows, f, norm(other, f))));
            var stopped := wrote.(stage := Idle);
            && Next(norm, s, Launch(other, s.rules, false, false, {}), begun)
            && Next(norm, begun, NormalizeFile(f), wrote) && Next(norm, wrote, Crash, stopped)
            && ReturnsToReceipt(stopped, Launch(s.parser, s.rules, false, false, {}))
            && StaleSkip(norm, stopped, Launch(s.parser, s.rules, false, false, {}),
                         stopped.(parser := s.parser, rerun := false))
  {
    CurrentRows(norm, s);
    assert {} * s.d.files == {};
    assert RowsOf(Put(s.d.rows, f, norm(other, f)), f) == norm(other, f);
    assert RowsOf(Canonical(norm, s.d.files, s.parser), f) == norm(s.parser, f);
    assert s.d.findings == Result(Canonical(norm, s.d.files, s.parser), s.rules);
  }

  // ---------------------------------------------------------------- whole histories

  datatype Window = AfterReceipt | BackToReceipt | OverOldRows | PastReceipt

  predicate StaysOut(norm: Normalizer, s: State, step: Step, w: Window) {
    && (StopsUnanalyzed(s, step) ==> w.AfterReceipt?)
    && (ReturnsToReceipt(s, step) ==> w.BackToReceipt?)
    && (KeepsOldRows(norm, s, step) ==> w.OverOldRows?)
    && (IgnoresReceipt(s, step) ==> w.PastReceipt?)
  }

  /** A history that is in no window but this one. */
  predicate Only(norm: Normalizer, r: Run, w: Window) {
    r.Valid(norm) && forall i | 0 <= i < |r.steps| :: StaysOut(norm, r.states[i], r.steps[i], w)
  }

  const OK := Status("normalized", 1)

  /** A normalizer that finds one row in every file. */
  function OneRow(parser: Parser, f: string): Rows { [parser] }

  lemma Extend(norm: Normalizer, r: Run, w: Window, step: Step, t: State) returns (u: Run)
    requires Only(norm, r, w) && Next(norm, r.states[|r.steps|], step, t)
    requires StaysOut(norm, r.states[|r.steps|], step, w)
    ensures u == Run(r.states + [t], r.steps + [step]) && Only(norm, u, w)
  {
    u := Run(r.states + [t], r.steps + [step]);
    forall i | 0 <= i < |u.steps|
      ensures Next(norm, u.states[i], u.steps[i], u.states[i + 1]) && StaysOut(norm, u.states[i], u.steps[i], w)
    {
      if i < |r.steps| {
        assert Next(norm, r.states[i], r.steps[i], r.states[i + 1]) && StaysOut(norm, r.states[i], r.steps[i], w);
      }
    }
  }

  /** Ingesting and normalizing one new file, from the start of an ingest to the receipt. */
  lemma IngestAndNormalize(norm: Normalizer, r: Run, w: Window, f: string) returns (u: Run)
    requires Only(norm, r, w) && norm(r.states[|r.steps|].parser, f) == [r.states[|r.steps|].parser]
    requires var s := r.states[|r.steps|];
             s.stage == Ingesting({}) && !s.rerun && f !in s.d.files && !s.d.foreign
             && (s.d.files == {} || s.d.normalized.Completed?)
             && (s.d.normalized.Completed? ==> s.d.normalized.revision.parser == s.parser)
    ensures Only(norm, u, w) && u.states[0] == r.states[0]
    ensures var s, t := r.states[|r.steps|], u.states[|u.steps|];
            var d := s.d.(files := s.d.files + {f}, statuses := s.d.statuses[f := OK],
                          rows := s.d.rows[f := [s.parser]], raw := true);
            t == s.(stage := Normalized(false), d := d.(normalized := Completed(RevisionOf(d, s.parser))))
  {
    var s := r.states[|r.steps|];
    var d1 := s.d.(files := s.d.files + {f}, statuses := s.d.statuses[f := Status("parsed", 0)], raw := true);
    var none: set<string> := {};
    assert s.stage.added + {f} == {f} && none * d1.files == none;
    u := Extend(norm, r, w, IngestFile(f, Status("parsed", 0)), s.(stage := Ingesting({f}), d := d1));
    assert s.d.files == {} ==> d1.files == {f};
    u := Extend(norm, u, w, EndIngest({}), s.(stage := Normalizing({f}, {}), d := d1));
    u := NormalizeOneFile(norm, u, w, f);
    assert d1.statuses[f := OK] == s.d.statuses[f := OK];
  }

  /** The normalization of one file, from its start to the receipt. */
  lemma NormalizeOneFile(norm: Normalizer, r: Run, w: Window, f: string) returns (u: Run)
    requires Only(norm, r, w) && norm(r.states[|r.steps|].parser, f) == [r.states[|r.steps|].parser]
    requires r.states[|r.steps|].stage == Normalizing({f}, {}) && f in r.states[|r.steps|].d.files
    ensures Only(norm, u, w) && u.states[0] == r.states[0]
    ensures var s, t := r.states[|r.steps|], u.states[|u.steps|];
            t == Receipted(s.(d := s.d.(rows := s.d.rows[f := [s.parser]])), f)
  {
    var s := r.states[|r.steps|];
    var s2 := s.(d := s.d.(rows := s.d.rows[f := [s.parser]]));
    u := Extend(norm, r, w, NormalizeFile(f), s2);
    u := ReceiptOneFile(norm, u, w, f);
  }

  /** The state after the adapters, the measuring of one row and the receipt. */
  function Receipted(s: State, f: string): State {
    var d := s.d.(statuses := s.d.statuses[f := OK]);
    s.(stage := Normalized(s.rerun), d := d.(normalized := Completed(RevisionOf(d, s.parser)), foreign := false))
  }

  /** The normalization of one file from the end of its adapter to the receipt. */
  lemma ReceiptOneFile(norm: Normalizer, r: Run, w: Window, f: string) returns (u: Run)
    requires Only(norm, r, w) && r.states[|r.steps|].stage == Normalizing({f}, {})
    requires |RowsOf(r.states[|r.steps|].d.rows, f)| == 1
    requires w.OverOldRows? || Fresh(norm, r.states[|r.steps|], f)
    ensures Only(norm, u, w) && u.states[0] == r.states[0]
    ensures u.states[|u.steps|] == Receipted(r.states[|r.steps|], f)
  {
    u := MeasureOneFile(norm, r, w, f);
    var s := u.states[|u.steps|];
    u := Extend(norm, u, w, EndMeasuring, s.(stage := Retiring({})));
    u := Extend(norm, u, w, EndNormalize, Receipted(r.states[|r.steps|], f));
  }

  lemma MeasureOneFile(norm: Normalizer, r: Run, w: Window, f: string) returns (u: Run)
    requires Only(norm, r, w) && r.states[|r.steps|].stage == Normalizing({f}, {})
    requires |RowsOf(r.states[|r.steps|].d.rows, f)| == 1
    requires w.OverOldRows? || Fresh(norm, r.states[|r.steps|], f)
    ensures Only(norm, u, w) && u.states[0] == r.states[0]
    ensures var s := r.states[|r.steps|];
            u.states[|u.steps|] == s.(stage := Measuring({f}, {}), d := s.d.(statuses := s.d.statuses[f := OK]))
  {
    var s := r.states[|r.steps|];
    u := Extend(norm, r, w, EndAdapters, s.(stage := Measuring({f}, {})));
    u := Extend(norm, u, w, MeasureFile(f, OK),
                s.(stage := Measuring({f}, {}), d := s.d.(statuses := s.d.statuses[f := OK])));
  }

  /** The analysis after a receipt. */
  lemma AnalyzeAll(norm: Normalizer, r: Run, w: Window) returns (u: Run)
    requires Only(norm, r, w) && r.states[|r.steps|].stage.Normalized?
    ensures Only(norm, u, w) && u.states[0] == r.states[0]
    ensures var s := r.states[|r.steps|];
            u.states[|u.steps|] ==
            s.(stage := Idle, d := s.d.(findings := Result(s.d.rows, s.rules), analyzed := Analyzed(s.rules)))
  {
    var s := r.states[|r.steps|];
    u := Extend(norm, r, w, DecideAnalysis, s.(stage := Analyzing, d := s.d.(analyzed := NotCompleted)));
    u := Extend(norm, u, w, EndAnalysis,
                s.(stage := Idle, d := s.d.(findings := Result(s.d.rows, s.rules), analyzed := Analyzed(s.rules))));
  }

  /** One file, normalized and analyzed by one parser. */
  function OneFile(parser: Parser, x: Rows): Durable {
    Durable({"a"}, map["a" := OK], map["a" := x], true, Completed(Revision(parser, map["a" := OK], {"a"})),
            Analyzed("r"), Result(map["a" := x], "r"), false)
  }

  lemma OneFileAnalyzed(norm: Normalizer, s: State, w: Window) returns (r: Run)
    requires New(s) && norm("p", "a") == ["p"]
    ensures Only(norm, r, w) && r.states[0] == s
    ensures r.states[|r.steps|] == State(OneFile("p", ["p"]), Idle, "p", "r", false)
  {
    r := Run([s], []);
    r := Extend(norm, r, w, Launch("p", "r", false, true, {}), State(s.d, Ingesting({}), "p", "r", false));
    r := IngestAndNormalize(norm, r, w, "a");
    r := AnalyzeAll(norm, r, w);
    assert {} + {"a"} == {"a"};
  }

  /** A history ends in a skip over findings that are out of date. */
  predicate EndsStale(norm: Normalizer, r: Run) {
    var n := |r.steps| - 1;
    r.Valid(norm) && n >= 0 && StaleSkip(norm, r.states[n], r.steps[n], r.states[n + 1])
  }

  /** A whole history into the first window alone: one file normalized and analyzed, a second one
      normalized, a stop, and a run that skips although the second file was never analyzed. */
  lemma FirstWindowReached(s: State) returns (r: Run)
    requires New(s)
    ensures r.states != [] && r.states[0] == s && Only(OneRow, r, AfterReceipt) && EndsStale(OneRow, r)
  {
    var m, w := OneRow, AfterReceipt;
    r := OneFileAnalyzed(m, s, w);
    var x := r.states[|r.steps|];
    r := Extend(m, r, w, Launch("p", "r", false, true, {}), x.(stage := Ingesting({})));
    r := IngestAndNormalize(m, r, w, "b");
    var n := r.states[|r.steps|];
    assert "b" in n.d.rows && "b" !in map["a" := ["p"]];
    r := Extend(m, r, w, Crash, n.(stage := Idle));
    r := Extend(m, r, w, Launch("p", "r", false, false, {}), n.(stage := Idle, rerun := false));
  }

  /** A whole history into the second window alone: one file analyzed under one parser, its rows
      rewritten by another one that stops, and a run of the first parser that skips over them. */
  lemma SecondWindowReached(s: State) returns (r: Run)
    requires New(s)
    ensures r.states != [] && r.states[0] == s && Only(OneRow, r, BackToReceipt) && EndsStale(OneRow, r)
  {
    var m, w := OneRow, BackToReceipt;
    r := OneFileAnalyzed(m, s, w);
    var x := r.states[|r.steps|];
    var none: set<string> := {};
    assert none * x.d.files == none;
    var begun := x.(stage := Normalizing(x.d.files, {}), parser := "q", rerun := true, d := x.d.(foreign := true));
    r := Extend(m, r, w, Launch("q", "r", false, false, {}), begun);
    r := RewriteAndSkip(m, r, w, "p");
  }

  /** The file's rows rewritten, and a stop. */
  lemma RewriteAndStop(norm: Normalizer, r: Run, w: Window) returns (u: Run)
    requires Only(norm, r, w) && r.states[|r.steps|].stage == Normalizing({"a"}, {})
    requires var s := r.states[|r.steps|];
             s.d.files == {"a"} && s.d.rows.Keys == {"a"} && s.parser == "q" && norm("q", "a") == ["q"]
    ensures Only(norm, u, w) && u.states[0] == r.states[0]
    ensures var s := r.states[|r.steps|];
            u.states[|u.steps|] == s.(stage := Idle, d := s.d.(rows := map["a" := ["q"]]))
  {
    var s := r.states[|r.steps|];
    var wrote := s.(d := s.d.(rows := map["a" := ["q"]]));
    u := Extend(norm, r, w, NormalizeFile("a"), wrote);
    u := Extend(norm, u, w, Crash, wrote.(stage := Idle));
  }

  /** The file's rows rewritten, a stop, and a run that skips over them. */
  lemma RewriteAndSkip(norm: Normalizer, r: Run, w: Window, parser: Parser) returns (u: Run)
    requires Only(norm, r, w) && !w.AfterReceipt?
    requires var s := r.states[|r.steps|];
             && s.stage == Normalizing({"a"}, {}) && s.d.(foreign := false) == OneFile(parser, ["p"]) && s.rules == "r"
             && (s.d.foreign ==> w.BackToReceipt?) && s.parser == "q" && norm("q", "a") == ["q"]
    ensures Only(norm, u, w) && u.states[0] == r.states[0] && EndsStale(norm, u)
  {
    u := RewriteAndStop(norm, r, w);
    var x := u.states[|u.steps|];
    assert x.d.rows["a"] == ["q"] && OneFile(parser, ["p"]).rows["a"] == ["p"];
    u := Extend(norm, u, w, Launch(parser, "r", false, false, {}), x.(parser := parser, rerun := false));
  }

  /** A whole history into the third window alone: under a new parser the raw output of the one file is
      missing, its old rows are counted, and the receipt and the analysis are completed on them; the
      raw output comes back, a forced rerun rewrites the rows and stops, and the next run skips. */
  lemma ThirdWindowReached(s: State) returns (r: Run)
    requires New(s)
    ensures r.states != [] && r.states[0] == s && Only(OneRow, r, OverOldRows) && EndsStale(OneRow, r)
  {
    var m, w := OneRow, OverOldRows;
    r := OneFileAnalyzed(m, s, w);
    var x := r.states[|r.steps|];
    var none: set<string> := {};
    assert none * x.d.files == none;
    var begun := x.(stage := Normalizing({"a"}, {}), parser := "q", rerun := true, d := x.d.(foreign := true));
    r := Extend(m, r, w, Launch("q", "r", false, false, {}), begun);
    r := ReceiptOneFile(m, r, w, "a");
    r := AnalyzeAll(m, r, w);
    var y := r.states[|r.steps|];
    assert x.d.statuses["a" := OK] == x.d.statuses;
    r := Extend(m, r, w, Launch("q", "r", true, false, {}), y.(stage := Normalizing({"a"}, {}), rerun := true));
    r := RewriteAndSkip(m, r, w, "q");
  }

  /** A whole history into the fourth window alone: a new parser rewrites the rows and stops, the raw
      output is lost, and the next run without input does not look at the receipt and skips. */
  lemma FourthWindowReached(s: State) returns (r: Run)
    requires New(s)
    ensures r.states != [] && r.states[0] == s && Only(OneRow, r, PastReceipt) && EndsStale(OneRow, r)
  {
    var m, w := OneRow, PastReceipt;
    r := OneFileAnalyzed(m, s, w);
    var x := r.states[|r.steps|];
    var none: set<string> := {};
    assert none * x.d.files == none;
    var begun := x.(stage := Normalizing({"a"}, {}), parser := "q", rerun := true, d := x.d.(foreign := true));
    r := Extend(m, r, w, Launch("q", "r", false, false, {}), begun);
    r := RewriteAndStop(m, r, w);
    var stopped := r.states[|r.steps|];
    var lost := stopped.(d := stopped.d.(raw := false));
    r := Extend(m, r, w, RawOutput(false), lost);
    assert lost.d.rows["a"] == ["q"] && OneFile("p", ["p"]).rows["a"] == ["p"];
    r := Extend(m, r, w, Launch("q", "r", false, false, {}), lost.(rerun := false));
  }
}
