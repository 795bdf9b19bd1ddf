/** What a crash finds in the middle of a source pass: every state it commits (`evidence/normalize.py`,
    `evidence/invalidation.py`). */
module PassCommits {
  import opened Common
  import opened EvidenceSources
  import opened Invalidation
  import opened ContentIdentity
  import opened NormalizePass
  import opened SourceReplacement
  import opened SourceConvergence
  import opened EvidenceRuns
  import opened SourcePass

  // ---------------------------------------------------------------- committed states end a run

  /** A run with one interruption at most, after which only failures are registered. */
  ghost predicate CutRun(run: Run, t: Tables, c: Tables) {
    && run.Valid() && run.First() == t && run.Last() == c
    && (forall x :: run.Leaves(x))
    && forall i, j | 0 <= i < j < |run.steps| && run.steps[i].Interrupt? :: run.steps[j].Work?
  }

  ghost predicate EndsRun(t: Tables, c: Tables) {
    exists run: Run :: CutRun(run, t, c)
  }

  lemma WholeIsCut(run: Run, t: Tables, c: Tables)
    requires RunOf(run, t, c)
    ensures EndsRun(t, c)
  {
    forall i | 0 <= i < |run.steps| ensures !run.steps[i].Interrupt? { assert run.steps[i] in run.steps; }
    assert CutRun(run, t, c);
  }

  /** A whole run and one more step, possibly an interrupted one. */
  lemma CutAfter(run: Run, t: Tables, m: Tables, s: Step, c: Tables)
    requires RunOf(run, t, m) && Takes(m, s, c)
    requires s.Work? ==> forall x :: Untouched(m, c, x)
    ensures CutRun(SourcePass.Extended(run, s, c), t, c) && EndsRun(t, c)
  {
    StepAppended(run, s, c);
    forall i | 0 <= i < |run.steps| ensures !run.steps[i].Interrupt? { assert run.steps[i] in run.steps; }
    assert CutRun(SourcePass.Extended(run, s, c), t, c);
  }

  /** Registrations after an interruption. */
  lemma CutThenWork(run: Run, t: Tables, m: Tables, c: Tables)
    requires CutRun(run, t, m) && c.evidence == m.evidence && forall x :: Untouched(m, c, x)
    ensures EndsRun(t, c)
  {
    StepAppended(run, Work, c);
    assert CutRun(SourcePass.Extended(run, Work, c), t, c);
  }

  lemma SourcesAlone(m: Tables, c: Tables, x: Conclusion)
    requires c == m.(sources := c.sources)
    ensures Untouched(m, c, x)
  {
    OtherTables(m, c, x);
  }

  lemma {:induction false} PartIsWrite(m: Tables, f: Family, parts: seq<Adapted>, c: Tables) returns (a: Adapted)
    requires c in PartCommits(m, f, parts)
    ensures a in parts && c == Adapt(m, f, a)
  {
    var n := |parts| - 1;
    if c == Adapt(m, f, parts[n]) { a := parts[n]; } else { a := PartIsWrite(m, f, parts[..n], c); }
  }

  /** What a finished adapter and its invalidations commit is a step, if only a cut one. */
  lemma FamilyCommitIsStep(m: Tables, f: Family, parts: seq<Adapted>, a: Adapted, c: Tables) returns (s: Step)
    requires c in FamilyCommits(m, f, parts, a) && forall x | x in parts + [a] :: Routed(f, x.tables)
    ensures Takes(m, s, c) && !s.Work? && c.files == m.files
  {
    InvalidateFrame(Adapt(m, f, a), Removed(m, f, a), REMOVED);
    InvalidateFrame(Invalidate(Adapt(m, f, a), Removed(m, f, a), REMOVED), Changed(m, f, a), CHANGED);
    if c in PartCommits(m, f, parts) {
      var x := PartIsWrite(m, f, parts, c);
      s := Interrupt(f, x, false);
    } else if c == Adapt(m, f, a) { s := Interrupt(f, a, false); }
    else if c == NormalizeFamily(m, f, a) { s := Normalize(f, a); }
    else { s := Interrupt(f, a, true); }
  }

  lemma FamilyCommitEndsRun(t: Tables, runs: Family -> AdapterRun, n: nat, c: Tables)
    requires n < |FAMILIES| && AdaptersRouted(runs) && runs(FAMILIES[n]).Finished?
    requires c in FamilyCommits(NormalizeFamilies(t, FAMILIES, runs, n), FAMILIES[n], runs(FAMILIES[n]).parts,
                                runs(FAMILIES[n]).result)
    ensures EndsRun(t, c) && c.files == NormalizeFamilies(t, FAMILIES, runs, n).files
  {
    var run := NormalizationIsRun(t, runs, n);
    var m, f := NormalizeFamilies(t, FAMILIES, runs, n), FAMILIES[n];
    var s := FamilyCommitIsStep(m, f, runs(f).parts, runs(f).result, c);
    CutAfter(run, t, m, s, c);
  }

  lemma PartCommitEndsRun(t: Tables, runs: Family -> AdapterRun, n: nat, c: Tables)
    requires n < |FAMILIES| && AdaptersRouted(runs)
    requires c in PartCommits(NormalizeFamilies(t, FAMILIES, runs, n), FAMILIES[n], runs(FAMILIES[n]).parts)
    ensures EndsRun(t, c) && c.files == NormalizeFamilies(t, FAMILIES, runs, n).files
  {
    var run := NormalizationIsRun(t, runs, n);
    var m, f := NormalizeFamilies(t, FAMILIES, runs, n), FAMILIES[n];
    var a := PartIsWrite(m, f, runs(f).parts, c);
    assert a in Writes(runs(f));
    CutAfter(run, t, m, Interrupt(f, a, false), c);
  }

  lemma RaiseCommitEndsRun(t: Tables, runs: Family -> AdapterRun, n: nat, failed: Sources, c: Tables)
    requires n < |FAMILIES| && AdaptersRouted(runs) && runs(FAMILIES[n]).Raised?
    requires PartlyCommitted(Adapt(NormalizeFamilies(t, FAMILIES, runs, n), FAMILIES[n], runs(FAMILIES[n]).partial),
                             failed, c)
    ensures EndsRun(t, c)
  {
    var run := NormalizationIsRun(t, runs, n);
    var m, f, a := NormalizeFamilies(t, FAMILIES, runs, n), FAMILIES[n], runs(FAMILIES[n]).partial;
    assert a in Writes(runs(f));
    CutAfter(run, t, m, Interrupt(f, a, false), Adapt(m, f, a));
    forall x ensures Untouched(Adapt(m, f, a), c, x) { SourcesAlone(Adapt(m, f, a), c, x); }
    CutThenWork(SourcePass.Extended(run, Interrupt(f, a, false), Adapt(m, f, a)), t, Adapt(m, f, a), c);
  }

  lemma StatusCommitEndsRun(t: Tables, runs: Family -> AdapterRun, attempts: Sources, c: Tables)
    requires AdaptersRouted(runs) && PartlyCommitted(NormalizeFamilies(t, FAMILIES, runs, |FAMILIES|), attempts, c)
    ensures EndsRun(t, c)
  {
    var m := NormalizeFamilies(t, FAMILIES, runs, |FAMILIES|);
    var run := NormalizationIsRun(t, runs, |FAMILIES|);
    forall x ensures Untouched(m, c, x) { SourcesAlone(m, c, x); }
    CutAfter(run, t, m, Work, c);
  }

  // ---------------------------------------------------------------- no committed state lost a source

  /** The source left only for a ready replacement of its path and family. */
  predicate Replaced(files: Files, c: Tables, r: Replacements, k: string)
    requires k in files
  {
    var f := files[k].kind;
    f in r && k in r[f] && ReplacementReady(c, f, files[k].path, r[f][k])
  }

  predicate LosesNothing(files: Files, c: Tables, r: Replacements) {
    && c.files.Keys <= files.Keys && (forall k | k in c.files :: c.files[k] == files[k])
    && forall k | k in files && k !in c.files :: Replaced(files, c, r, k)
  }

  lemma RetireLosesNothing(files: Files, keys: Option<set<string>>, r: Replacements, u: Tables, g: Family)
    requires ReplacementsOf(files, keys, r) && LosesNothing(files, u, r) && g in r
    ensures LosesNothing(files, RetireFamily(u, g, r[g]), r)
  {
    var v := RetireFamily(u, g, r[g]);
    var gone := if g == Registry then {} else EligibleSources(u, g, r[g]);
    RetiredParts(u, g, r[g]);
    forall k | k in r[g] ensures r[g][k] !in r[g] {
      if r[g][k] in r[g] { DomainAndImageDisjoint(files, keys, r, g, g, r[g][k], k); }
    }
    RetireSafe(u, g, r[g]);
    forall k | k in files && k !in v.files ensures Replaced(files, v, r, k) {
      if k !in u.files {
        var f := files[k].kind;
        if r[f][k] in r[g] { DomainAndImageDisjoint(files, keys, r, g, f, r[f][k], k); }
      }
    }
  }

  lemma {:induction false} RetireCommitIsPrefix(u: Tables, order: seq<Family>, r: Replacements, c: Tables)
    returns (n: nat)
    requires c in AllRetireCommits(u, order, r)
    ensures n <= |order| && c == RetireAll(u, order[..n], r)
  {
    var k := |order| - 1;
    if c in AllRetireCommits(u, order[..k], r) {
      n := RetireCommitIsPrefix(u, order[..k], r, c);
      assert order[..k][..n] == order[..n];
    } else {
      n := k + 1;
      assert order[..n] == order;
    }
  }

  lemma {:induction false} PrefixLosesNothing(files: Files, keys: Option<set<string>>, r: Replacements, u: Tables,
                                              order: seq<Family>)
    requires ReplacementsOf(files, keys, r) && u.files == files
    ensures LosesNothing(files, RetireAll(u, order, r), r)
  {
    if order == [] {
    } else {
      var n := |order| - 1;
      PrefixLosesNothing(files, keys, r, u, order[..n]);
      if order[n] in r { RetireLosesNothing(files, keys, r, RetireAll(u, order[..n], r), order[n]); }
    }
  }

  // ---------------------------------------------------------------- and no row without its source

  /** No row is new, and rows and their parts are as they were, or gone together with the source they
      came from. */
  predicate FamilyFollows(u: FamilyTables, v: FamilyTables, gone: set<string>) {
    && v.rows.Keys <= u.rows.Keys && v.aux <= u.aux
    && (forall id | id in u.rows :: if id in v.rows then v.rows[id] == u.rows[id] else SourceFileOf(u.rows[id]) in gone)
    && (forall p | p in u.aux && p !in v.aux :: p.1 in gone)
  }

  predicate RowsFollow(u: Tables, v: Tables) {
    v.files.Keys <= u.files.Keys
    && forall f: Family :: FamilyFollows(u.evidence.Get(f), v.evidence.Get(f), u.files.Keys - v.files.Keys)
  }

  lemma FollowsThrough(u: FamilyTables, v: FamilyTables, x: FamilyTables, gone: set<string>, more: set<string>)
    requires FamilyFollows(u, v, gone) && FamilyFollows(v, x, more)
    ensures FamilyFollows(u, x, gone + more)
  {
    forall p | p in u.aux && p !in x.aux ensures p.1 in gone + more { assert p in v.aux || p.1 in gone; }
  }

  lemma WithoutFollows(u: FamilyTables, gone: set<string>)
    ensures FamilyFollows(u, Without(u, gone), gone) && FamilyFollows(u, u, gone)
  {}

  lemma EligibleAreFiles(u: Tables, g: Family, replaced: map<string, string>)
    ensures EligibleSources(u, g, replaced) <= u.files.Keys
  {}

  lemma RetireFollows(u: Tables, g: Family, replaced: map<string, string>)
    ensures RowsFollow(u, RetireFamily(u, g, replaced))
  {
    hide RetireFamily, EligibleSources, FamilyFollows, Without;
    var v := RetireFamily(u, g, replaced);
    var gone := if g == Registry then {} else EligibleSources(u, g, replaced);
    RetiredParts(u, g, replaced);
    EligibleAreFiles(u, g, replaced);
    assert u.files.Keys - v.files.Keys == gone;
    forall f: Family ensures FamilyFollows(u.evidence.Get(f), v.evidence.Get(f), gone) {
      WithoutFollows(u.evidence.Get(f), gone);
    }
  }

  lemma {:induction false} PrefixFollows(u: Tables, order: seq<Family>, r: Replacements)
    ensures RowsFollow(u, RetireAll(u, order, r))
  {
    if order == [] {
    } else {
      var n := |order| - 1;
      var m, v := RetireAll(u, order[..n], r), RetireAll(u, order, r);
      PrefixFollows(u, order[..n], r);
      if order[n] in r {
        RetireFollows(m, order[n], r[order[n]]);
        var gone, more := u.files.Keys - m.files.Keys, m.files.Keys - v.files.Keys;
        assert u.files.Keys - v.files.Keys == gone + more;
        forall f: Family ensures FamilyFollows(u.evidence.Get(f), v.evidence.Get(f), gone + more) {
          FollowsThrough(u.evidence.Get(f), m.evidence.Get(f), v.evidence.Get(f), gone, more);
        }
      }
    }
  }

  // ---------------------------------------------------------------- every committed state of a pass

  /** What a crash may leave: the end of a run of the case, with no source lost for less than a ready
      replacement, and since the retirement began at `p` no row without its source. */
  ghost predicate Safe(t: Tables, r: Replacements, p: Tables, c: Tables) {
    EndsRun(t, c) && LosesNothing(t.files, c, r) && (c.files == t.files || RowsFollow(p, c))
  }

  lemma {:induction false} AdapterCommitEndsRun(t: Tables, runs: Family -> AdapterRun, n: nat, c: Tables)
    requires n <= |FAMILIES| && AdaptersRouted(runs) && c in AdapterCommits(t, FAMILIES, runs, n)
    ensures EndsRun(t, c) && c.files == t.files
  {
    FilesKept(t, runs, n - 1);
    if c in AdapterCommits(t, FAMILIES, runs, n - 1) {
      AdapterCommitEndsRun(t, runs, n - 1, c);
    } else {
      FamilyCommitEndsRun(t, runs, n - 1, c);
    }
  }

  /** Every state a completed pass commits, file by file, is one a crash may leave: a source is missing
      from it only if a ready replacement of its path is there, a row retired only with its source, and
      it is the end of a run, so that what still stands in it was not struck. */
  lemma CompletedPassCommitsSafely(t: Tables, keys: Option<set<string>>, runs: Family -> AdapterRun, w: Surroundings,
                                   order: seq<Family>, r: Replacements, was: seq<Tables>, commits: seq<Tables>, i: nat)
    requires AdaptersRouted(runs) && ReplacementsOf(t.files, keys, r)
    requires CommittedWhole(t, keys, runs, w, order, r, was, commits) && |was| <= i < |commits|
    ensures Safe(t, r, Prepared(t, keys, runs, w), commits[i])
    ensures i < |commits| - |AllRetireCommits(Prepared(t, keys, runs, w), order, r)| ==> commits[i].files == t.files
  {
    var m, p := NormalizeFamilies(t, FAMILIES, runs, |FAMILIES|), Prepared(t, keys, runs, w);
    var first, last := AdapterCommits(t, FAMILIES, runs, |FAMILIES|), AllRetireCommits(p, order, r);
    var mid := commits[..|commits| - |last|];
    FilesKept(t, runs, |FAMILIES|);
    if i < |was| + |first| {
      assert mid[i] == (was + first)[i] == first[i - |was|];
      AdapterCommitEndsRun(t, runs, |FAMILIES|, commits[i]);
    } else if i < |mid| {
      assert PartlyCommitted(m, Measurements(m, w, ActiveKeys(t.files, keys)), mid[i]);
      StatusCommitEndsRun(t, runs, Measurements(m, w, ActiveKeys(t.files, keys)), commits[i]);
    } else {
      assert commits[i] == last[i - |mid|];
      RetireCommitSafe(t, keys, runs, w, order, r, commits[i]);
    }
  }

  lemma RetireCommitSafe(t: Tables, keys: Option<set<string>>, runs: Family -> AdapterRun, w: Surroundings,
                         order: seq<Family>, r: Replacements, c: Tables)
    requires AdaptersRouted(runs) && ReplacementsOf(t.files, keys, r)
    requires c in AllRetireCommits(Prepared(t, keys, runs, w), order, r)
    ensures Safe(t, r, Prepared(t, keys, runs, w), c)
  {
    var p := Prepared(t, keys, runs, w);
    FilesKept(t, runs, |FAMILIES|);
    var n := RetireCommitIsPrefix(p, order, r, c);
    var run := PassIsRun(t, keys, runs, w, order[..n], r);
    WholeIsCut(run, t, c);
    PrefixLosesNothing(t.files, keys, r, p, order[..n]);
    PrefixFollows(p, order[..n], r);
  }

  /** So is every state a pass commits whose adapter raises, up to the registration of its failed
      sources; and nothing is retired in any of them. */
  lemma RaisedPassCommitsSafely(t: Tables, keys: set<string>, runs: Family -> AdapterRun, fileName: string -> string,
                                n: nat, u: Tables, was: seq<Tables>, commits: seq<Tables>, i: nat)
    requires AdaptersRouted(runs) && n < |FAMILIES|
    requires RaisedAt(t, was, FAMILIES, keys, runs, fileName, n, u, commits) && |was| <= i < |commits|
    ensures EndsRun(t, commits[i]) && commits[i].files == t.files
  {
    var f, a := FAMILIES[n], runs(FAMILIES[n]);
    var m := NormalizeFamilies(t, FAMILIES, runs, n);
    var first, parts := AdapterCommits(t, FAMILIES, runs, n), PartCommits(m, f, a.parts);
    FilesKept(t, runs, n);
    if i < |was| + |first| + |parts| {
      assert commits[i] == (was + first + parts)[i];
      if i < |was| + |first| {
        assert commits[i] == first[i - |was|];
        AdapterCommitEndsRun(t, runs, n, commits[i]);
      } else {
        assert commits[i] == parts[i - |was| - |first|];
        PartCommitEndsRun(t, runs, n, commits[i]);
      }
    } else {
      var x := Adapt(m, f, a.partial);
      assert PartlyCommitted(x, Failures(x, f, keys, fileName, a.error), commits[i]);
      RaiseCommitEndsRun(t, runs, n, Failures(x, f, keys, fileName, a.error), commits[i]);
    }
  }
}
