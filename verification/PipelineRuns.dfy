/** The evidence stages of a pipeline run on the stored case (`pipeline.py`). Every durable write is a
    step of the receipt protocol, so a run that is cut anywhere is a prefix of one of its histories. */
module PipelineRuns {
  import opened Common
  import opened PipelineStages
  import opened StageReceipts
  import opened StageSoundness

  ghost predicate Extends(r: Run, was: Run) {
    was.states <= r.states && was.steps <= r.steps
  }

  class Pipeline {
    const norm: Normalizer
    var files: set<string>
    var statuses: map<string, Status>
    var rows: Evidence
    var raw: bool
    var normalized: NormalizeReceipt
    var analyzed: AnalyzeReceipt
    var findings: Findings

    /** The history so far; its last state is what is stored. */
    ghost var run: Run

    ghost function Now(): State
      requires |run.states| > 0
      reads this
    { run.states[|run.states| - 1] }

    ghost predicate Valid()
      reads this
    {
      && run.Valid(norm)
      && Now().d == Durable(files, statuses, rows, raw, normalized, analyzed, findings, Now().d.foreign)
    }

    constructor (norm: Normalizer)
      ensures Valid() && this.norm == norm && New(run.states[0]) && run.steps == []
    {
      this.norm := norm;
      files, statuses, rows, raw := {}, map[], map[], false;
      normalized, analyzed, findings := NoReceipt, NotCompleted, Unfinished(0);
      var nothing := Durable({}, map[], map[], false, NoReceipt, NotCompleted, Unfinished(0), false);
      run := Run([State(nothing, Idle, "", "", false)], []);
    }

    ghost method Log(step: Step, t: State)
      requires run.Valid(norm) && Next(norm, Now(), step, t)
      modifies this`run
      ensures run.Valid(norm) && Now() == t && Extends(run, old(run))
      ensures run.steps == old(run).steps + [step] && run.states == old(run).states + [t]
    {
      ghost var was := run;
      run := Run(was.states + [t], was.steps + [step]);
      forall i | 0 <= i < |run.steps| ensures Next(norm, run.states[i], run.steps[i], run.states[i + 1]) {
        if i < |was.steps| { assert Next(norm, was.states[i], was.steps[i], was.states[i + 1]); }
      }
    }

    /** What becomes of the raw directory between the runs. */
    method ChangeRaw(present: bool)
      requires Valid() && Now().stage.Idle?
      modifies this
      ensures Valid() && Extends(run, old(run)) && Now() == old(Now()).(d := old(Now()).d.(raw := present))
    {
      raw := present;
      Log(RawOutput(present), Now().(d := Now().d.(raw := present)));
    }

    // -------------------------------------------------------------- ingest

    method AddFile(f: string, added: set<string>) returns (more: set<string>)
      requires Valid() && Now().stage == Ingesting(added)
      modifies this
      ensures Valid() && Extends(run, old(run))
      ensures var i := Add(Ingest(old(Now()).d, added), f);
              more == i.added && Now() == old(Now()).(stage := Ingesting(more), d := i.d)
    {
      files, statuses, raw := files + {f}, statuses[f := PARSED], true;
      more := added + {f};
      var d := Now().d.(files := files, statuses := statuses, raw := true);
      Log(IngestFile(f, PARSED), Now().(stage := Ingesting(more), d := d));
    }

    method SpoilSource(f: string, state: string, added: set<string>)
      requires Valid() && Now().stage == Ingesting(added) && (f in files ==> Broken(state))
      modifies this
      ensures Valid() && Extends(run, old(run))
      ensures Now() == old(Now()).(d := Spoil(Ingest(old(Now()).d, added), f, state).d)
    {
      var status := Registered(statuses, f, state);
      statuses := statuses[f := status];
      Log(DisturbSource(f, status), Now().(d := Now().d.(statuses := statuses)));
    }

    /** One registry dataset whose members are not all known. */
    method IngestMembers(members: seq<string>, raises: bool, added: set<string>) returns (more: set<string>)
      requires Valid() && Now().stage == Ingesting(added)
      modifies this
      ensures Valid() && Extends(run, old(run))
      ensures var i := Members(Ingest(old(Now()).d, added), members, raises);
              more == i.added && Now() == old(Now()).(stage := Ingesting(more), d := i.d)
    {
      more := added;
      ghost var i := Ingest(Now().d, added);
      for n := 0 to |members|
        invariant Valid() && Extends(run, old(run))
        invariant more == Members(i, members[..n], raises).added
        invariant Now() == old(Now()).(stage := Ingesting(more), d := Members(i, members[..n], raises).d)
      {
        MembersMore(i, members, n, raises);
        if raises { SpoilSource(members[n], "failed", more); } else { more := AddFile(members[n], more); }
      }
      assert members[..|members|] == members;
    }

    method IngestFound(g: Found, added: set<string>) returns (more: set<string>)
      requires Valid() && Now().stage == Ingesting(added)
      modifies this
      ensures Valid() && Extends(run, old(run))
      ensures var i := IngestOne(Ingest(old(Now()).d, added), g);
              more == i.added && Now() == old(Now()).(stage := Ingesting(more), d := i.d)
    {
      more := added;
      match g {
        case OneFile(sha, parsing) =>
          if sha in files { return; }
          if parsing.Records? { more := AddFile(sha, added); }
          else { SpoilSource(sha, if parsing.Raises? then "failed" else "empty", added); }
        case Dataset(members, raises) =>
          if forall f | f in members :: f in files { return; }
          more := IngestMembers(members, raises, added);
      }
    }

    /** `_run_ingest_stage` */
    method RunIngestStage(found: seq<Found>) returns (added: set<string>)
      requires Valid() && Now().stage == Ingesting({})
      modifies this
      ensures Valid() && Extends(run, old(run))
      ensures var i := IngestedBy(old(Now()).d, found);
              added == i.added && Now() == old(Now()).(stage := Ingesting(added), d := i.d)
      ensures files == old(files) + ReadableIn(found) && files - old(files) <= added <= files
      ensures forall f | f in added :: f in statuses && !Ready(statuses[f])
      ensures forall f :: f in added <==>
                exists n | 0 <= n < |found| :: TouchedAt(old(Now()).d, found, n, f) && f in Readable(found[n])
    {
      added := {};
      ghost var d := Now().d;
      for n := 0 to |found|
        invariant Valid() && Extends(run, old(run))
        invariant added == IngestedBy(d, found[..n]).added
        invariant Now() == old(Now()).(stage := Ingesting(added), d := IngestedBy(d, found[..n]).d)
      {
        IngestedMore(d, found, n);
        added := IngestFound(found[n], added);
      }
      assert found[..|found|] == found;
      IngestMeans(d, found);
      assert forall f | f in added :: Unready(Now().d, f);
      forall f
        ensures f in added <==> exists n | 0 <= n < |found| :: TouchedAt(d, found, n, f) && f in Readable(found[n])
      {
        AddedIff(d, found, f);
      }
    }

    // -------------------------------------------------------------- normalize

    /** What an adapter does to one file. */
    method AdaptFile(parser: Parser, f: string, a: Attempt)
      requires Valid() && Now().stage.Normalizing? && f in files && Now().parser == parser
      modifies this
      ensures Valid() && Extends(run, old(run))
      ensures Now() == old(Now()).(d := Adapt(norm, old(Now()).d, parser, f, a))
    {
      match a {
        case Rewrite(_, _) => WriteRows(parser, f);
        case Keep(_) =>
        case Project(status) =>
          WriteRows(parser, f);
          statuses := statuses[f := status];
          Log(ProjectSource(f, status), Now().(d := Now().d.(statuses := statuses)));
        case Refuse(malformed) => FailOne(f, if malformed then "partial" else "failed");
      }
    }

    method WriteRows(parser: Parser, f: string)
      requires Valid() && Now().stage.Normalizing? && f in files && Now().parser == parser
      modifies this
      ensures Valid() && Extends(run, old(run))
      ensures Now() == old(Now()).(d := old(Now()).d.(rows := Put(old(rows), f, norm(parser, f))))
    {
      rows := Put(rows, f, norm(parser, f));
      Log(NormalizeFile(f), Now().(d := Now().d.(rows := rows)));
    }

    method FailOne(f: string, state: string)
      requires Valid() && Now().stage.Normalizing? && Broken(state)
      modifies this
      ensures Valid() && Extends(run, old(run))
      ensures Now() == old(Now()).(d := old(Now()).d.(
                statuses := old(statuses)[f := Registered(old(statuses), f, state)]))
    {
      var status := Registered(statuses, f, state);
      statuses := statuses[f := status];
      Log(FailSource(f, status), Now().(d := Now().d.(statuses := statuses)));
    }

    /** The adapters, file by file. */
    method AdaptFiles(parser: Parser, reached: set<string>, attempt: string -> Attempt)
      requires Valid() && Now().stage.Normalizing? && Now().parser == parser && reached <= files
      modifies this
      ensures Valid() && Extends(run, old(run))
      ensures Now() == old(Now()).(d := Adapted(norm, old(Now()).d, parser, reached, attempt))
    {
      var todo := reached;
      ghost var d := Now().d;
      AdaptedNone(norm, d, parser, attempt);
      while todo != {}
        invariant todo <= reached && Valid() && Extends(run, old(run))
        invariant Now() == old(Now()).(d := Adapted(norm, d, parser, reached - todo, attempt))
      {
        var f :| f in todo;
        AdaptedMore(norm, d, parser, reached - todo, attempt, f);
        assert reached - (todo - {f}) == reached - todo + {f};
        todo := todo - {f};
        AdaptFile(parser, f, attempt(f));
      }
      assert reached - todo == reached;
    }

    /** The registration of the sources of an adapter that raised. */
    method MarkFailed(failed: set<string>)
      requires Valid() && Now().stage.Normalizing?
      modifies this
      ensures Valid() && Extends(run, old(run))
      ensures Now() == old(Now()).(d := old(Now()).d.(statuses := Marked(old(statuses), failed)))
    {
      var todo := failed;
      MarkedNone(statuses);
      while todo != {}
        invariant todo <= failed && Valid() && Extends(run, old(run))
        invariant Now() == old(Now()).(d := old(Now()).d.(statuses := Marked(old(statuses), failed - todo)))
      {
        var f :| f in todo;
        MarkedMore(old(statuses), failed - todo, f);
        assert failed - (todo - {f}) == failed - todo + {f};
        todo := todo - {f};
        FailOne(f, "failed");
      }
      assert failed - todo == failed;
    }

    method WriteStatus(f: string, now: Status)
      requires Valid() && Now().stage.Measuring? && f in Now().stage.keys && Measures(norm, Now(), f, now)
      modifies this
      ensures Valid() && Extends(run, old(run))
      ensures Now() == old(Now()).(d := old(Now()).d.(
                statuses := old(statuses)[f := Merged(old(statuses), f, now)]))
    {
      statuses := statuses[f := Merged(statuses, f, now)];
      Log(MeasureFile(f, now), Now().(d := Now().d.(statuses := statuses)));
    }

    /** The source states, file by file. */
    method MeasureFiles(targets: set<string>, attempt: string -> Attempt)
      requires Valid() && Now().stage.Measuring? && targets <= Now().stage.keys
      requires forall f | f in targets :: Measures(norm, Now(), f, Counted(rows, f, attempt(f)))
      modifies this
      ensures Valid() && Extends(run, old(run))
      ensures Now() == old(Now()).(d := old(Now()).d.(
                statuses := Measured(old(statuses), targets, Counting(old(rows), attempt))))
    {
      var todo := targets;
      ghost var now := Counting(rows, attempt);
      MeasuredNone(statuses, now);
      while todo != {}
        invariant todo <= targets && Valid() && Extends(run, old(run))
        invariant Now() == old(Now()).(d := old(Now()).d.(statuses := Measured(old(statuses), targets - todo, now)))
      {
        var f :| f in todo;
        MeasuredMore(old(statuses), targets - todo, now, f);
        assert targets - (todo - {f}) == targets - todo + {f};
        todo := todo - {f};
        WriteStatus(f, Counted(rows, f, attempt(f)));
      }
      assert targets - todo == targets;
    }

    /** `normalize_all`: all adapters and the update of the states, or up to an adapter that raises. */
    method NormalizeAll(parser: Parser, keys: set<string>, w: World)
      requires Valid() && Now().stage.Normalizing? && Now().stage.keys == keys && Now().parser == parser
               && keys <= files
      modifies this
      ensures Valid() && Extends(run, old(run))
      ensures Now() == if w.outcome.Raised? then
                         old(Now()).(stage := Idle, d := CutShort(norm, old(Now()).d, parser, w))
                       else old(Now()).(stage := Measuring(keys, old(Now()).stage.superseded),
                                        d := Rebuilt(norm, old(Now()).d, parser, keys, w))
    {
      if w.outcome.Raised? {
        var done, failed := w.outcome.done * files, w.outcome.failed * files;
        AdaptFiles(parser, done, w.attempt);
        MarkFailed(failed);
        Log(Crash, Now().(stage := Idle));
        return;
      }
      var reached := keys + w.siblings * files;
      ghost var d := Now().d;
      AdaptFiles(parser, reached, w.attempt);
      Log(EndAdapters, Now().(stage := Measuring(keys, Now().stage.superseded)));
      forall f | f in ToMeasure(keys, w.attempt)
        ensures Measures(norm, Now(), f, Counted(rows, f, w.attempt(f)))
      {
        CountedMeasures(norm, Now(), d, reached, w.attempt, f);
      }
      MeasureFiles(ToMeasure(keys, w.attempt), w.attempt);
    }

    method Retire(superseded: set<string>, f: string)
      requires Valid() && Now().stage == Retiring(superseded) && f in superseded
      modifies this
      ensures Valid() && Extends(run, old(run))
      ensures Now() == old(Now()).(d := Retired(old(Now()).d, {f}))
    {
      files, statuses, rows := files - {f}, statuses - {f}, rows - {f};
      Log(RetireSource(f), Now().(d := Now().d.(files := files, statuses := statuses, rows := rows)));
    }

    method RetireSuperseded(superseded: set<string>, eligible: set<string>)
      requires Valid() && Now().stage == Retiring(superseded) && eligible <= superseded
      modifies this
      ensures Valid() && Extends(run, old(run))
      ensures Now() == old(Now()).(d := Retired(old(Now()).d, eligible))
    {
      var todo := eligible;
      RetiredNone(Now().d);
      while todo != {}
        invariant todo <= eligible && Valid() && Extends(run, old(run))
        invariant Now() == old(Now()).(d := Retired(old(Now()).d, eligible - todo))
      {
        var f :| f in todo;
        RetiredMore(old(Now()).d, eligible - todo, f);
        assert eligible - (todo - {f}) == eligible - todo + {f};
        todo := todo - {f};
        Retire(superseded, f);
      }
      assert eligible - todo == eligible;
    }

    /** The pending receipt, only when something is superseded. */
    method RecordPending(superseded: set<string>)
      requires Valid() && Now().stage.Measuring? && Now().stage.superseded == superseded
      modifies this
      ensures Valid() && Extends(run, old(run))
      ensures Now() == old(Now()).(stage := Retiring(superseded),
        d := if superseded != {} then old(Now()).d.(normalized := PendingReplacement) else old(Now()).d)
    {
      if superseded != {} { normalized := PendingReplacement; }
      Log(EndMeasuring, Now().(stage := Retiring(superseded), d := Now().d.(normalized := normalized)));
    }

    method RecordNormalized(parser: Parser)
      requires Valid() && Now().stage.Retiring? && Now().parser == parser
      modifies this
      ensures Valid() && Extends(run, old(run))
      ensures Now() == old(Now()).(stage := Normalized(old(Now()).rerun),
        d := old(Now()).d.(normalized := Completed(RevisionOf(old(Now()).d, parser)), foreign := false))
    {
      normalized := Completed(Revision(parser, statuses, files));
      var d := Now().d.(normalized := normalized, foreign := false);
      Log(EndNormalize, Now().(stage := Normalized(Now().rerun), d := d));
    }

    /** `_run_normalize_stage` once it has decided to run. */
    method RunNormalizeStage(parser: Parser, keys: set<string>, superseded: set<string>, eligible: set<string>,
                             w: World)
      requires Valid() && Now().stage == Normalizing(keys, superseded) && Now().parser == parser && keys <= files
      requires eligible <= superseded
      modifies this
      ensures Valid() && Extends(run, old(run))
      ensures Now() == old(Now()).(stage := if w.outcome.Raised? then Idle else Normalized(old(Now()).rerun),
                                   d := NormalizedBy(norm, old(Now()).d, parser, keys, eligible, w))
    {
      NormalizeAll(parser, keys, w);
      if w.outcome.Raised? { return; }
      RecordPending(superseded);
      RetireSuperseded(superseded, eligible);
      RecordNormalized(parser);
    }

    // -------------------------------------------------------------- analyze

    method AnalyzeBatch(batch: nat)
      requires Valid() && Now().stage.Analyzing?
      modifies this
      ensures Valid() && Extends(run, old(run))
      ensures Now() == old(Now()).(d := old(Now()).d.(findings := Unfinished(batch)))
    {
      findings := Unfinished(batch);
      Log(AnalyzeSome(batch), Now().(d := Now().d.(findings := findings)));
    }

    /** The body of `_run_analyze_stage` after its "running" receipt. */
    method Analyze(rules: Rules, batches: nat)
      requires Valid() && Now().stage.Analyzing? && Now().rules == rules
      modifies this
      ensures Valid() && Extends(run, old(run)) && Now().stage.Idle? && Now().rules == rules
      ensures Now().d == AnalyzedBy(old(Now()).d, rules)
    {
      for i := 0 to batches
        invariant Valid() && Extends(run, old(run))
        invariant Now() == old(Now()).(d := old(Now()).d.(findings := findings))
      {
        AnalyzeBatch(i);
      }
      findings, analyzed := Result(rows, rules), Analyzed(rules);
      Log(EndAnalysis, Now().(stage := Idle, d := Now().d.(findings := findings, analyzed := analyzed)));
    }

    /** `_run_analyze_stage` after a skipped normalization: the receipt decides. */
    method RunAnalyzeStage(rules: Rules, init: bool, batches: nat) returns (skipped: bool)
      requires Valid() && Now().rules == rules && Now().stage == Deciding(init)
      modifies this
      ensures Valid() && Extends(run, old(run)) && Now().stage.Idle? && Now().rules == rules
      ensures skipped <==> !init && old(analyzed) == Analyzed(rules)
      ensures Now().d == if skipped then old(Now()).d else AnalyzedBy(old(Now()).d, rules)
      ensures skipped ==> LastSkips()
    {
      if !init && analyzed == Analyzed(rules) {
        Log(DecideAnalysis, Now().(stage := Idle));
        return true;
      }
      analyzed := NotCompleted;
      Log(DecideAnalysis, Now().(stage := Analyzing, d := Now().d.(analyzed := NotCompleted)));
      Analyze(rules, batches);
      skipped := false;
    }

    /** The last step of the history left an earlier analysis in place. */
    ghost predicate LastSkips()
      reads this
    {
      |run.steps| > 0 && |run.states| == |run.steps| + 1
      && Skips(run.states[|run.steps| - 1], run.steps[|run.steps| - 1], run.states[|run.steps|])
    }

    /** What the receipts guarantee of the stored case after a skip. */
    lemma SkippedIsCurrentIff(rules: Rules)
      requires Valid() && LastSkips() && New(run.states[0]) && Now().rules == rules
      ensures raw ==> SourcesNormalized(files, statuses)
      ensures findings == Result(rows, rules) <==> rows == run.LastAnalyzed(|run.steps| - 1)
      ensures run.AvoidsWindows(norm) ==> findings == Result(rows, rules)
    {
      hide Next;
      SkipIsCurrentIff(norm, run, |run.steps| - 1);
      if run.AvoidsWindows(norm) { SkippedAnalysisIsCurrent(norm, run, |run.steps| - 1); }
    }

    // -------------------------------------------------------------- the stages together

    method ReceiptIsCurrent(parser: Parser) returns (current: bool)
      requires Valid()
      ensures current == NormalizeCurrent(Now().d, parser)
    {
      current := normalized == Completed(Revision(parser, statuses, files)) && SourcesNormalized(files, statuses);
    }

    method KeysToNormalize(parser: Parser, added: set<string>) returns (keys: set<string>)
      requires Valid()
      ensures keys == KeysFor(Now().d, parser, added)
    {
      keys := added;
      if added == {} || !normalized.Completed? || normalized.revision.parser != parser {
        keys := files;
      }
    }

    /** A normalization that was decided on, and the analysis it forces. */
    method NormalizeAndAnalyze(parser: Parser, rules: Rules, keys: set<string>,
                               superseded: set<string>, eligible: set<string>, batches: nat, w: World)
      requires Valid() && Now().stage == Normalizing(keys, superseded) && Now().parser == parser && Now().rules == rules
      requires keys <= files && eligible <= superseded
      modifies this
      ensures Valid() && Extends(run, old(run)) && Now().stage.Idle? && Now().rules == rules
      ensures Now().d == NormalizedAndAnalyzed(norm, old(Now()).d, parser, rules, keys, eligible, w)
    {
      RunNormalizeStage(parser, keys, superseded, eligible, w);
      if w.outcome.Finished? {
        analyzed := NotCompleted;
        Log(DecideAnalysis, Now().(stage := Analyzing, d := Now().d.(analyzed := NotCompleted)));
        Analyze(rules, batches);
      } else if w.outcome.Stopped? {
        Log(Crash, Now().(stage := Idle));
      }
    }

    ghost method LogNormalize(parser: Parser, added: set<string>, keys: set<string>, superseded: set<string>)
      requires Valid() && Now().stage == Ingesting(added) && Now().parser == parser
      requires keys == KeysFor(Now().d, parser, added)
      requires Now().rerun || added != {} || !NormalizeCurrent(Now().d, parser)
      modifies this`run
      ensures Valid() && Extends(run, old(run))
      ensures Now() == old(Now()).(stage := Normalizing(keys, superseded * files),
                                   d := old(Now()).d.(foreign := StartsForeign(old(Now()).d, parser)))
    {
      var d := Now().d.(foreign := StartsForeign(Now().d, parser));
      Log(EndIngest(superseded), Now().(stage := Normalizing(keys, superseded * files), d := d));
    }

    /** A normalization after an ingest, over the keys the receipt calls for. */
    method NormalizeIngested(parser: Parser, rules: Rules, added: set<string>,
                             superseded: set<string>, eligible: set<string>, batches: nat, w: World)
      requires Valid() && Now().stage == Ingesting(added) && Now().parser == parser && Now().rules == rules
      requires added <= files && (Now().rerun || added != {} || !NormalizeCurrent(Now().d, parser))
      modifies this
      ensures Valid() && Extends(run, old(run)) && Now().stage.Idle? && Now().rules == rules
      ensures var d := old(Now()).d;
              Now().d == NormalizedAndAnalyzed(norm, d.(foreign := StartsForeign(d, parser)), parser, rules,
                                               KeysFor(d, parser, added), superseded * eligible * d.files, w)
    {
      var keys := KeysToNormalize(parser, added);
      var replaced, ready := superseded * files, superseded * eligible * files;
      LogNormalize(parser, added, keys, superseded);
      NormalizeAndAnalyze(parser, rules, keys, replaced, ready, batches, w);
    }

    /** What follows an ingest: the receipt decides whether to normalize. */
    method FinishIngested(parser: Parser, rules: Rules, rerun: bool, added: set<string>,
                          superseded: set<string>, eligible: set<string>, batches: nat, w: World)
      returns (skipped: bool, normalizes: bool)
      requires Valid() && Now().stage == Ingesting(added) && Now().parser == parser && Now().rules == rules
      requires Now().rerun == rerun && added <= files
      modifies this
      ensures Valid() && Extends(run, old(run)) && Now().stage.Idle? && Now().rules == rules
      ensures normalizes == (rerun || added != {} || !NormalizeCurrent(old(Now()).d, parser))
      ensures Now().d == AfterArrival(norm, Ingest(old(Now()).d, added), parser, rules, normalizes,
                                      superseded * eligible, w)
      ensures skipped <==> !normalizes && old(analyzed) == Analyzed(rules)
      ensures skipped ==> LastSkips()
      ensures !skipped && (w.outcome.Finished? || !normalizes) ==> findings == Result(rows, rules)
    {
      var current := ReceiptIsCurrent(parser);
      normalizes := rerun || added != {} || !current;
      if normalizes {
        NormalizeIngested(parser, rules, added, superseded, eligible, batches, w);
        skipped := false;
      } else {
        Log(EndIngest(superseded), Now().(stage := Deciding(false)));
        skipped := RunAnalyzeStage(rules, false, batches);
      }
    }

    /** The stages over an input directory. */
    method RunWithInput(parser: Parser, rules: Rules, rerun: bool, found: seq<Found>,
                        superseded: set<string>, eligible: set<string>, batches: nat, w: World)
      returns (skipped: bool)
      requires Valid() && Now().stage.Idle?
      modifies this
      ensures Valid() && Extends(run, old(run)) && Now().stage.Idle? && Now().rules == rules
      ensures Now().d == StagesOf(norm, old(Now()).d, parser, rules, rerun, Some(found), superseded * eligible, w)
      ensures skipped <==> !Normalizes(old(Now()).d, parser, rerun, Some(found)) && old(analyzed) == Analyzed(rules)
      ensures skipped ==> LastSkips()
      ensures !skipped && (w.outcome.Finished? || !Normalizes(old(Now()).d, parser, rerun, Some(found)))
              ==> findings == Result(rows, rules)
    {
      Log(Launch(parser, rules, rerun, true, superseded), State(Now().d, Ingesting({}), parser, rules, rerun));
      var added := RunIngestStage(found);
      IngestMeans(old(Now()).d, found);
      var normalizes;
      skipped, normalizes := FinishIngested(parser, rules, rerun, added, superseded, eligible, batches, w);
    }

    /** The stages over what was ingested before. */
    method RunWithoutInput(parser: Parser, rules: Rules, rerun: bool,
                           superseded: set<string>, eligible: set<string>, batches: nat, w: World)
      returns (skipped: bool)
      requires Valid() && Now().stage.Idle?
      modifies this
      ensures Valid() && Extends(run, old(run)) && Now().stage.Idle? && Now().rules == rules
      ensures Now().d == StagesOf(norm, old(Now()).d, parser, rules, rerun, None, superseded * eligible, w)
      ensures skipped <==> !Normalizes(old(Now()).d, parser, rerun, None) && old(analyzed) == Analyzed(rules)
      ensures skipped ==> LastSkips()
      ensures !skipped && (w.outcome.Finished? || !Normalizes(old(Now()).d, parser, rerun, None))
              ==> findings == Result(rows, rules)
    {
      var current := ReceiptIsCurrent(parser);
      ghost var step := Launch(parser, rules, rerun, false, superseded);
      if raw && (rerun || !current) {
        var replaced, ready := superseded * files, superseded * eligible * files;
        ghost var d := Now().d.(foreign := StartsForeign(Now().d, parser));
        Log(step, State(d, Normalizing(files, replaced), parser, rules, true));
        NormalizeAndAnalyze(parser, rules, files, replaced, ready, batches, w);
        skipped := false;
      } else if analyzed != Analyzed(rules) {
        analyzed := NotCompleted;
        Log(step, State(Now().d.(analyzed := NotCompleted), Analyzing, parser, rules, rerun));
        Analyze(rules, batches);
        skipped := false;
      } else {
        Log(step, State(Now().d, Idle, parser, rules, rerun));
        skipped := true;
      }
    }

    /** `_run_evidence_stages`: whatever happened before, and whatever the adapters do, the new state is
        a function of the old one. A run that comes to its end leaves findings that are the result of
        the current rules on the current evidence: always if it analyzed, and if it skipped the analysis
        exactly when the rows are those of the last one, as they are outside the four windows. It skips
        exactly when there is nothing to normalize and the last analysis was by the same rules. */
    method RunEvidenceStages(parser: Parser, rules: Rules, rerun: bool, input: Option<seq<Found>>,
                             superseded: set<string>, eligible: set<string>, batches: nat, w: World)
      returns (skipped: bool)
      requires Valid() && Now().stage.Idle?
      modifies this
      ensures Valid() && Extends(run, old(run)) && Now().stage.Idle?
      ensures Now().d == StagesOf(norm, old(Now()).d, parser, rules, rerun, input, superseded * eligible, w)
      ensures !skipped && (w.outcome.Finished? || !Normalizes(old(Now()).d, parser, rerun, input))
              ==> findings == Result(rows, rules)
      ensures skipped <==> !Normalizes(old(Now()).d, parser, rerun, input) && old(analyzed) == Analyzed(rules)
      ensures skipped ==> LastSkips()
      ensures New(run.states[0]) && skipped ==>
                && (raw ==> SourcesNormalized(files, statuses))
                && (findings == Result(rows, rules) <==> rows == run.LastAnalyzed(|run.steps| - 1))
      ensures New(run.states[0]) && skipped && run.AvoidsWindows(norm) ==> findings == Result(rows, rules)
    {
      hide StagesOf, Normalizes, Next, SourcesNormalized;
      match input {
        case Some(found) => skipped := RunWithInput(parser, rules, rerun, found, superseded, eligible, batches, w);
        case None => skipped := RunWithoutInput(parser, rules, rerun, superseded, eligible, batches, w);
      }
      if skipped && New(run.states[0]) { SkippedIsCurrentIff(rules); }
    }
  }
}
