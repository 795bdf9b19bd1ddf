/** The normalize stage as one operation on the case database, and what one completed run of it
    guarantees (`pipeline.py`). */
module SourcePass {
  import opened Common
  import opened EvidenceSources
  import opened Invalidation
  import opened CaseDatabase
  import opened ContentIdentity
  import opened NormalizePass
  import opened SourceReplacement
  import opened SourceConvergence
  import opened EvidenceRuns

  /** The keys the adapters are given. */
  function ActiveKeys(files: Files, keys: Option<set<string>>): set<string> {
    match keys
    case None => files.Keys - {""}
    case Some(ks) => ks - {""}
  }

  /** Everything a completed pass does up to the retirement. */
  function Prepared(t: Tables, keys: Option<set<string>>, runs: Family -> AdapterRun, w: Surroundings): Tables {
    UpdateStatus(NormalizeFamilies(t, FAMILIES, runs, |FAMILIES|), w, ActiveKeys(t.files, keys))
  }

  /** What a completed pass commits: the work of the adapters, the measured states one by one, and one
      state per family that has sources to retire. */
  ghost predicate CommittedWhole(t: Tables, keys: Option<set<string>>, runs: Family -> AdapterRun, w: Surroundings,
                                 order: seq<Family>, r: Replacements, was: seq<Tables>, commits: seq<Tables>)
  {
    var m := NormalizeFamilies(t, FAMILIES, runs, |FAMILIES|);
    var last := AllRetireCommits(Prepared(t, keys, runs, w), order, r);
    && |last| <= |commits| && commits[|commits| - |last|..] == last
    && PartlySince(m, Measurements(m, w, ActiveKeys(t.files, keys)),
                   was + AdapterCommits(t, FAMILIES, runs, |FAMILIES|), commits[..|commits| - |last|])
  }

  /** The stage: decide what is superseded, normalize, measure, retire. A raising adapter ends it
      before anything is retired. */
  method RunSourcePass(db: CaseDb, keys: Option<set<string>>, runs: Family -> AdapterRun,
                       fileName: string -> string, w: Surroundings)
    returns (raised: Option<nat>, ghost r: Replacements, ghost order: seq<Family>)
    modifies db
    ensures ReplacementsOf(old(db.files), keys, r) && Ordered(order, r)
    ensures raised.None? ==>
              && (forall i | 0 <= i < |FAMILIES| :: runs(FAMILIES[i]).Finished?)
              && db.View() == RetireAll(Prepared(old(db.View()), keys, runs, w), order, r)
              && CommittedWhole(old(db.View()), keys, runs, w, order, r, old(db.commits), db.commits)
    ensures raised.Some? ==>
              && raised.value < |FAMILIES| && db.files == old(db.files)
              && RaisedAt(old(db.View()), old(db.commits), FAMILIES, ActiveKeys(old(db.files), keys), runs, fileName,
                          raised.value, db.View(), db.commits)
  {
    ghost var t, was := db.View(), db.commits;
    var active := ActiveKeys(db.files, keys);
    var replaced, families := FindReplacedSourceIds(db.files, keys);
    r, order := replaced, families;
    raised := NormalizeAdapters(db, FAMILIES, active, runs, fileName);
    if raised.None? {
      UpdateSourceStatus(db, w, active);
      ghost var mid := db.commits;
      RetireReplacedSources(db, families, replaced);
      ghost var last := AllRetireCommits(Prepared(t, keys, runs, w), order, r);
      assert db.commits[|db.commits| - |last|..] == last && db.commits[..|db.commits| - |last|] == mid;
    } else {
      FilesKept(t, runs, raised.value);
    }
  }

  lemma FilesKept(t: Tables, runs: Family -> AdapterRun, n: nat)
    requires n <= |FAMILIES|
    ensures NormalizeFamilies(t, FAMILIES, runs, n).files == t.files
  {
    if n > 0 { FilesKept(t, runs, n - 1); }
  }

  // ---------------------------------------------------------------- convergence

  /** The source was rebuilt: it has rows, or its raw file is there and empty. If the update of its
      state raised, the row the adapters left decides. */
  predicate Rebuilt(t: Tables, runs: Family -> AdapterRun, w: Surroundings, f: Family, current: string) {
    var m := NormalizeFamilies(t, FAMILIES, runs, |FAMILIES|);
    if current in w.skipped then
      current in m.sources && m.sources[current].family == f && Ready(m.sources[current].status)
    else RowCount(m.evidence.Get(f), current) > 0 || w.raw(f, current) == RawEmpty
  }

  lemma RebuiltIsReady(t: Tables, keys: Option<set<string>>, runs: Family -> AdapterRun, w: Surroundings,
                       f: Family, path: string, current: string)
    requires f != Registry && current != "" && current in Pool(t.files, keys) * Group(t.files, f, path)
    ensures ReplacementReady(Prepared(t, keys, runs, w), f, path, current) <==> Rebuilt(t, runs, w, f, current)
  {
    var m, active := NormalizeFamilies(t, FAMILIES, runs, |FAMILIES|), ActiveKeys(t.files, keys);
    FilesKept(t, runs, |FAMILIES|);
    if current !in w.skipped { ReadyMeans(m, w, active, current); }
  }

  /** What a completed pass does to a path that has a promotable source, from any state and over any
      keys: if the newest of them, `current`, was rebuilt, it alone remains of the path and no row of
      the others is left; otherwise the path keeps every source it had. */
  lemma PassConverges(t: Tables, keys: Option<set<string>>, runs: Family -> AdapterRun, w: Surroundings,
                      r: Replacements, order: seq<Family>, f: Family, path: string, current: string)
    requires ReplacementsOf(t.files, keys, r) && Ordered(order, r)
    requires f != Registry && path != "" && current != ""
    requires IsFirst(t.files, Pool(t.files, keys) * Group(t.files, f, path), current)
    ensures var v := RetireAll(Prepared(t, keys, runs, w), order, r);
            if Rebuilt(t, runs, w, f, current)
            then Group(v.files, f, path) - {""} == {current}
                 && forall k | k in Group(t.files, f, path) && k !in {"", current} ::
                      k !in v.sources && NoRowsFrom(v.evidence.Get(f), k)
            else Group(v.files, f, path) == Group(t.files, f, path)
  {
    FilesKept(t, runs, |FAMILIES|);
    RebuiltIsReady(t, keys, runs, w, f, path, current);
    Converges(t.files, keys, Prepared(t, keys, runs, w), r, order, f, path, current);
  }

  /** Convergence: after one completed full pass every path of a file-based family whose newest source
      was rebuilt has exactly that source. */
  lemma FullPassConverges(t: Tables, runs: Family -> AdapterRun, w: Surroundings, r: Replacements, order: seq<Family>,
                          f: Family, path: string, newest: string)
    requires ReplacementsOf(t.files, None, r) && Ordered(order, r)
    requires f != Registry && path != "" && newest != ""
    requires IsFirst(t.files, Group(t.files, f, path), newest) && Rebuilt(t, runs, w, f, newest)
    ensures var v := RetireAll(Prepared(t, None, runs, w), order, r);
            && Group(v.files, f, path) - {""} == {newest}
            && forall k | k in Group(t.files, f, path) && k !in {"", newest} ::
                 k !in v.sources && NoRowsFrom(v.evidence.Get(f), k)
  {
    assert Pool(t.files, None) * Group(t.files, f, path) == Group(t.files, f, path);
    PassConverges(t, None, runs, w, r, order, f, path, newest);
  }

  /** Exactly when a completed pass converges to the newest source of a path: if it is promotable. A
      pass over keys that have only older sources of the path retires the newest one. */
  lemma NewestRemainsIff(t: Tables, keys: Option<set<string>>, runs: Family -> AdapterRun, w: Surroundings,
                         r: Replacements, order: seq<Family>, f: Family, path: string, newest: string, current: string)
    requires ReplacementsOf(t.files, keys, r) && Ordered(order, r)
    requires f != Registry && path != "" && current != "" && newest != ""
    requires IsFirst(t.files, Group(t.files, f, path), newest)
    requires IsFirst(t.files, Pool(t.files, keys) * Group(t.files, f, path), current)
    requires Rebuilt(t, runs, w, f, current)
    ensures newest in Group(RetireAll(Prepared(t, keys, runs, w), order, r).files, f, path)
       <==> newest in Pool(t.files, keys)
  {
    PassConverges(t, keys, runs, w, r, order, f, path, current);
    var left := Group(RetireAll(Prepared(t, keys, runs, w), order, r).files, f, path);
    assert newest in left <==> newest in left - {""};
    if newest in Pool(t.files, keys) {
      FirstIsUnique(t.files, Pool(t.files, keys) * Group(t.files, f, path), newest, current);
    }
  }

  /** Two ingests of one path, the second one newer. */
  const TWICE: Files := map["1" := File("C", Evtx, Some(1)), "2" := File("C", Evtx, Some(2))]

  lemma OlderIsDecided(r: Replacements)
    requires r == map[Evtx := map["2" := "1"]]
    ensures ReplacementsOf(TWICE, Some({"1"}), r)
    ensures IsFirst(TWICE, Group(TWICE, Evtx, "C"), "2")
    ensures IsFirst(TWICE, Pool(TWICE, Some({"1"})) * Group(TWICE, Evtx, "C"), "1")
  {
    assert Pool(TWICE, Some({"1"})) * Group(TWICE, Evtx, "C") == {"1"};
  }

  /** A pass keyed with the older hash really retires the newer source. */
  lemma OlderKeyRetiresNewest(t: Tables, runs: Family -> AdapterRun, w: Surroundings)
    requires t.files == TWICE && w.raw(Evtx, "1") == RawEmpty && w.skipped == {}
    ensures var r: Replacements := map[Evtx := map["2" := "1"]];
            && ReplacementsOf(t.files, Some({"1"}), r) && Ordered([Evtx], r)
            && Group(RetireAll(Prepared(t, Some({"1"}), runs, w), [Evtx], r).files, Evtx, "C") - {""} == {"1"}
  {
    var r: Replacements := map[Evtx := map["2" := "1"]];
    OlderIsDecided(r);
    PassConverges(t, Some({"1"}), runs, w, r, [Evtx], Evtx, "C", "1");
  }

  lemma ReplacementIsKeyed(files: Files, keys: set<string>, r: Replacements, f: Family, path: string, k: string)
    requires ReplacementsOf(files, Some(keys), r) && k in Group(files, f, path) && f in r && k in r[f]
    ensures r[f][k] in keys * Group(files, f, path)
  {
    assert Entry(r, f, k, r[f][k]);
  }

  /** A path without a promotable source is left as it is. */
  lemma KeyedPassSkipsOtherPaths(t: Tables, runs: Family -> AdapterRun, w: Surroundings, r: Replacements,
                                 order: seq<Family>,
                                 keys: set<string>, f: Family, path: string)
    requires ReplacementsOf(t.files, Some(keys), r) && Ordered(order, r)
    requires path != "" && keys * Group(t.files, f, path) == {}
    ensures Group(RetireAll(Prepared(t, Some(keys), runs, w), order, r).files, f, path) == Group(t.files, f, path)
  {
    FilesKept(t, runs, |FAMILIES|);
    var u := Prepared(t, Some(keys), runs, w);
    FamiliesIndependent(u, order, r, f);
    GroupByView(u, f, path);
    GroupByView(RetireAll(u, order, r), f, path);
    if f in r {
      forall k | k in Group(t.files, f, path) ensures k !in r[f] {
        if k in r[f] { ReplacementIsKeyed(t.files, keys, r, f, path, k); }
      }
      if f != Registry {
        RetiredView(u, f, r[f]);
      } else {
        assert RetireFamily(u, f, r[f]) == u;
      }
    }
  }

  // ---------------------------------------------------------------- a completed pass is a run

  /** Everything an adapter commits. */
  function Writes(run: AdapterRun): seq<Adapted> {
    run.parts + [if run.Finished? then run.result else run.partial]
  }

  /** Adapters write evidence of their own family. */
  ghost predicate AdaptersRouted(runs: Family -> AdapterRun) {
    forall f: Family, a | a in Writes(runs(f)) :: Routed(f, a.tables)
  }

  function Extended(r: Run, s: Step, u: Tables): Run {
    Run(r.states + [u], r.steps + [s])
  }

  predicate Uninterrupted(r: Run) {
    forall s | s in r.steps :: !s.Interrupt?
  }

  ghost predicate RunOf(run: Run, t: Tables, u: Tables) {
    run.Valid() && run.First() == t && run.Last() == u && Uninterrupted(run) && forall x :: run.Leaves(x)
  }

  lemma StepAppended(run: Run, s: Step, u: Tables)
    requires run.Valid() && Takes(run.Last(), s, u) && forall x :: run.Leaves(x)
    requires s.Work? ==> forall x :: Untouched(run.Last(), u, x)
    ensures Extended(run, s, u).Valid() && forall x :: Extended(run, s, u).Leaves(x)
  {
    var e, n := Extended(run, s, u), |run.steps|;
    forall i | 0 <= i < |e.steps| ensures Takes(e.states[i], e.steps[i], e.states[i + 1]) {
      if i < n { assert Takes(run.states[i], run.steps[i], run.states[i + 1]); }
    }
    forall x ensures e.Leaves(x) {
      assert run.Leaves(x);
      forall i | 0 <= i < |e.steps| && e.steps[i].Work? ensures Untouched(e.states[i], e.states[i + 1], x) {
        if i < n { assert run.steps[i].Work?; }
      }
    }
  }

  lemma ExtendRun(run: Run, t: Tables, s: Step, m: Tables, u: Tables)
    requires RunOf(run, t, m) && Takes(m, s, u) && !s.Interrupt?
    requires s.Work? ==> forall x :: Untouched(m, u, x)
    ensures RunOf(Extended(run, s, u), t, u)
  {
    StepAppended(run, s, u);
  }

  lemma NormalizationIsRun(t: Tables, runs: Family -> AdapterRun, n: nat) returns (run: Run)
    requires n <= |FAMILIES| && AdaptersRouted(runs)
    ensures RunOf(run, t, NormalizeFamilies(t, FAMILIES, runs, n))
  {
    if n == 0 {
      run := Run([t], []);
    } else {
      var before := NormalizationIsRun(t, runs, n - 1);
      var f := FAMILIES[n - 1];
      run := before;
      if runs(f).Finished? {
        var m, s := NormalizeFamilies(t, FAMILIES, runs, n - 1), Normalize(f, runs(f).result);
        ExtendRun(before, t, s, m, NormalizeFamilies(t, FAMILIES, runs, n));
        run := Extended(before, s, NormalizeFamilies(t, FAMILIES, runs, n));
      }
    }
  }

  lemma PassIsRun(t: Tables, keys: Option<set<string>>, runs: Family -> AdapterRun, w: Surroundings,
                  order: seq<Family>, r: Replacements) returns (run: Run)
    requires AdaptersRouted(runs)
    ensures RunOf(run, t, RetireAll(Prepared(t, keys, runs, w), order, r))
    decreases |order|
  {
    var p := Prepared(t, keys, runs, w);
    if order == [] {
      var n := NormalizeFamilies(t, FAMILIES, runs, |FAMILIES|);
      run := NormalizationIsRun(t, runs, |FAMILIES|);
      forall x ensures Untouched(n, p, x) { OtherTables(n, p, x); }
      ExtendRun(run, t, Work, n, p);
      run := Extended(run, Work, p);
    } else {
      var k := |order| - 1;
      var f, m := order[k], RetireAll(p, order[..k], r);
      run := PassIsRun(t, keys, runs, w, order[..k], r);
      if f in r {
        ExtendRun(run, t, Retire(f, r[f]), m, RetireFamily(m, f, r[f]));
        run := Extended(run, Retire(f, r[f]), RetireFamily(m, f, r[f]));
      }
    }
  }

  /** After one completed pass from any state, whatever still stands rests on evidence that is still
      there with unchanged content. */
  lemma CompletedPassIsSound(t: Tables, keys: Option<set<string>>, runs: Family -> AdapterRun, w: Surroundings,
                             order: seq<Family>, r: Replacements, x: Conclusion, id: string)
    requires AdaptersRouted(runs) && WellRouted(t.evidence)
    requires Exists(t, x) && Stands(t, x) && id in RestsOn(t, x)
    ensures var v := RetireAll(Prepared(t, keys, runs, w), order, r);
            Exists(v, x) && (Stands(v, x) ==> Kept(t.evidence, v.evidence, id))
  {
    var run := PassIsRun(t, keys, runs, w, order, r);
    assert run.Leaves(x);
    StandsUnlessStruck(run, x);
    forall i | 0 <= i < |run.steps| ensures !run.steps[i].Interrupt? { assert run.steps[i] in run.steps; }
    if Stands(run.Last(), x) { StandingIsSupported(run, x, id); }
  }
}
