/** One normalization pass (`evidence/normalize.py`): survey the referenced evidence, let the
    family's adapter replace its rows, survey again, and invalidate what was removed or changed. */
module NormalizePass {
  import opened Common
  import opened EvidenceSources
  import opened Invalidation
  import opened CaseDatabase
  import opened ContentIdentity

  // ---------------------------------------------------------------- surveys

  /** Every id a hypothesis link, a section, a claim or the timeline refers to. */
  function Referenced(t: Tables): set<string> {
    (set l | l in t.links :: t.links[l].evidence)
    + (set p | p in t.sectionEvidence :: p.1)
    + (set c, e | c in t.claims && e in t.claims[c].evidence :: e)
    + (set k | k in t.timeline :: t.timeline[k])
  }

  /** The referenced ids that exist in the family's tables. */
  function Materialized(t: Tables, f: Family): set<string> {
    set id | id in Referenced(t) && id != "" && t.evidence.Get(f).Has(id)
  }

  // ---------------------------------------------------------------- adapters

  /** What an adapter leaves behind: its family's tables, and (the registry adapter) the timeline and
      the source rows. Nothing else is assumed about it. */
  datatype Adapted = Adapted(tables: FamilyTables, timeline: map<string, string>, sources: Sources)

  /** An adapter run, with what it has committed before file by file; one that raises may have
      committed part of its work. */
  datatype AdapterRun =
    | Finished(parts: seq<Adapted>, result: Adapted)
    | Raised(parts: seq<Adapted>, partial: Adapted, error: string)

  function Adapt(t: Tables, f: Family, a: Adapted): Tables {
    t.(evidence := t.evidence.With(f, a.tables), timeline := a.timeline, sources := a.sources)
  }

  const REMOVED := "Assessed evidence was removed by source replacement"
  const CHANGED := "Assessed evidence content changed under the same source identity; re-evaluation required"

  function Removed(t: Tables, f: Family, a: Adapted): set<string> {
    Materialized(t, f) - Materialized(Adapt(t, f, a), f)
  }

  function Changed(t: Tables, f: Family, a: Adapted): set<string> {
    set id | id in Materialized(t, f) && id in Materialized(Adapt(t, f, a), f)
             && FingerprintOf(t.evidence, id) != FingerprintOf(Adapt(t, f, a).evidence, id)
  }

  /** A family normalized to the end. */
  function NormalizeFamily(t: Tables, f: Family, a: Adapted): Tables {
    Invalidate(Invalidate(Adapt(t, f, a), Removed(t, f, a), REMOVED), Changed(t, f, a), CHANGED)
  }

  const FAMILIES: seq<Family> := [Evtx, Mft, Prefetch, Registry]

  function NormalizeFamilies(t: Tables, order: seq<Family>, runs: Family -> AdapterRun, n: nat): Tables
    requires n <= |order|
  {
    if n == 0 then t
    else
      match runs(order[n - 1])
      case Finished(_, a) => NormalizeFamily(NormalizeFamilies(t, order, runs, n - 1), order[n - 1], a)
      case Raised(_, _, _) => NormalizeFamilies(t, order, runs, n - 1)
  }

  /** The ids a step invalidates. */
  function Hit(t: Tables, f: Family, a: Adapted): set<string> {
    Removed(t, f, a) + Changed(t, f, a)
  }

  /** An id some dependent rests on. */
  predicate Relied(t: Tables, id: string) {
    || (exists l | l in t.links :: t.links[l].evidence == id)
    || (exists p | p in t.sectionEvidence :: p.1 == id)
    || (exists c | c in t.claims :: id in t.claims[c].evidence)
  }

  lemma ReliedIsReferenced(t: Tables, id: string)
    requires Relied(t, id)
    ensures id in Referenced(t)
  {}

  lemma RoutedPresent(e: Evidence, f: Family, id: string)
    requires Routed(f, e.Get(f)) && id != ""
    ensures e.Get(f).Has(id) <==> Present(e, id) && RoutedFamily(id) == Some(f)
  {
    if p :| p in e.Get(f).aux && p.0 == id { assert RoutedFamily(id) == Some(f); }
  }

  lemma AdaptKeepsRouting(t: Tables, f: Family, a: Adapted)
    requires WellRouted(t.evidence) && Routed(f, a.tables)
    ensures WellRouted(Adapt(t, f, a).evidence)
  {
    forall g: Family ensures Routed(g, Adapt(t, f, a).evidence.Get(g)) { assert Routed(g, t.evidence.Get(g)); }
  }

  /** An adapter leaves the evidence of other families alone. */
  lemma OtherFamiliesKept(t: Tables, f: Family, a: Adapted, id: string)
    requires RoutedFamily(id) != Some(f)
    ensures Kept(t.evidence, Adapt(t, f, a).evidence, id)
  {}

  lemma MaterializedIsPresent(t: Tables, f: Family, id: string)
    requires WellRouted(t.evidence) && Relied(t, id)
    ensures id in Materialized(t, f) <==> Present(t.evidence, id) && RoutedFamily(id) == Some(f)
  {
    ReliedIsReferenced(t, id);
    assert Routed(f, t.evidence.Get(f));
    if id != "" { RoutedPresent(t.evidence, f, id); }
  }

  /** For evidence a conclusion rests on, a step invalidates exactly what it removed or changed. */
  lemma HitIsDamage(t: Tables, f: Family, a: Adapted, id: string)
    requires WellRouted(t.evidence) && Routed(f, a.tables)
    requires Relied(t, id)
    ensures id in Hit(t, f, a) <==> !Kept(t.evidence, Adapt(t, f, a).evidence, id)
  {
    var u := Adapt(t, f, a);
    AdaptKeepsRouting(t, f, a);
    assert Relied(u, id) by {
      assert u.links == t.links && u.sectionEvidence == t.sectionEvidence && u.claims == t.claims;
    }
    MaterializedIsPresent(t, f, id);
    MaterializedIsPresent(u, f, id);
    if RoutedFamily(id) != Some(f) { OtherFamiliesKept(t, f, a, id); }
  }

  // ---------------------------------------------------------------- the method

  /** The sources of a family among the active keys. */
  function FamilyKeys(files: map<string, File>, f: Family, keys: set<string>): set<string> {
    set k | k in keys && k in files && files[k].kind == f
  }

  function FailedRow(f: Family, path: string, fileName: string -> string, error: string): Source {
    Source(f, fileName(path), Failed, FamilyName(f), "", 0, "", [], "", None, None, "normalize_failed", error)
  }

  /** The rows a raising adapter's sources are registered with. */
  function Failures(t: Tables, f: Family, keys: set<string>, fileName: string -> string, error: string): Sources {
    map k | k in FamilyKeys(t.files, f, keys) :: FailedRow(f, t.files[k].path, fileName, error)
  }

  /** What a pass leaves whose n-th adapter raised: the families before it normalized, its partial
      work, and its sources marked failed. */
  function AfterRaise(t: Tables, order: seq<Family>, keys: set<string>, runs: Family -> AdapterRun,
                      fileName: string -> string, n: nat): Tables
    requires n < |order| && runs(order[n]).Raised?
  {
    var u := Adapt(NormalizeFamilies(t, order, runs, n), order[n], runs(order[n]).partial);
    u.(sources := RegisterAll(u.sources, Failures(u, order[n], keys, fileName, runs(order[n]).error)))
  }

  /** What such a pass leaves of every source: one of the raising family among the keys has failed with the
      exception's text, and its counts; any other is as the adapters left it. */
  lemma FailedSources(t: Tables, order: seq<Family>, keys: set<string>, runs: Family -> AdapterRun,
                      fileName: string -> string, n: nat, k: string)
    requires n < |order| && runs(order[n]).Raised?
    ensures var was := runs(order[n]).partial.sources;
            var u := AfterRaise(t, order, keys, runs, fileName, n);
            if k in keys && k in u.files && u.files[k].kind == order[n] then
              && k in u.sources && u.sources[k].status == Failed && u.sources[k].family == order[n]
              && u.sources[k].errorCode == "normalize_failed" && u.sources[k].errorSummary == runs(order[n]).error
              && u.sources[k].rowCount == if k in was then was[k].rowCount else 0
            else (k in u.sources <==> k in was) && (k in was ==> u.sources[k] == was[k])
  {}

  /** What the adapters of a pass leave that came to their end: of each family exactly the tables its
      adapter left, of the others those there were; the timeline and the sources as the last one left
      them; and of the ingest records, links and section evidence every row. */
  lemma {:induction false} AdaptersLeave(t: Tables, order: seq<Family>, runs: Family -> AdapterRun, n: nat)
    requires n <= |order| && (forall i | 0 <= i < n :: runs(order[i]).Finished?)
    ensures var u := NormalizeFamilies(t, order, runs, n);
            && u.files == t.files && u.links == t.links && u.sectionEvidence == t.sectionEvidence
            && (forall g: Family :: u.evidence.Get(g) == if g in order[..n] then runs(g).result.tables
                                                         else t.evidence.Get(g))
            && u.timeline == (if n == 0 then t.timeline else runs(order[n - 1]).result.timeline)
            && u.sources == (if n == 0 then t.sources else runs(order[n - 1]).result.sources)
  {
    hide NormalizeFamily;
    if n > 0 {
      AdaptersLeave(t, order, runs, n - 1);
      var m, f, a := NormalizeFamilies(t, order, runs, n - 1), order[n - 1], runs(order[n - 1]).result;
      FamilyLeaves(m, f, a);
      assert order[..n] == order[..n - 1] + [f];
    }
  }

  lemma FamilyLeaves(t: Tables, f: Family, a: Adapted)
    ensures var u := NormalizeFamily(t, f, a);
            && u.files == t.files && u.links == t.links && u.sectionEvidence == t.sectionEvidence
            && (forall g: Family :: u.evidence.Get(g) == if g == f then a.tables else t.evidence.Get(g))
            && u.timeline == a.timeline && u.sources == a.sources
  {
    hide Invalidate, Removed, Changed;
    var m := Invalidate(Adapt(t, f, a), Removed(t, f, a), REMOVED);
    InvalidateFrame(Adapt(t, f, a), Removed(t, f, a), REMOVED);
    InvalidateFrame(m, Changed(t, f, a), CHANGED);
  }

  // What a crash finds: the states a pass commits, one after the other.

  /** An adapter's work on the way, file by file. */
  function PartCommits(t: Tables, f: Family, parts: seq<Adapted>): seq<Tables> {
    if parts == [] then []
    else PartCommits(t, f, parts[..|parts| - 1]) + [Adapt(t, f, parts[|parts| - 1])]
  }

  /** The adapter's work, and each of the two invalidations that has something to do. */
  function FamilyCommits(t: Tables, f: Family, parts: seq<Adapted>, a: Adapted): seq<Tables> {
    PartCommits(t, f, parts)
    + [Adapt(t, f, a)]
    + (if Removed(t, f, a) == {} then [] else [Invalidate(Adapt(t, f, a), Removed(t, f, a), REMOVED)])
    + (if Changed(t, f, a) == {} then [] else [NormalizeFamily(t, f, a)])
  }

  function AdapterCommits(t: Tables, order: seq<Family>, runs: Family -> AdapterRun, n: nat): seq<Tables>
    requires n <= |order|
  {
    if n == 0 then []
    else
      AdapterCommits(t, order, runs, n - 1)
      + match runs(order[n - 1])
        case Finished(parts, a) => FamilyCommits(NormalizeFamilies(t, order, runs, n - 1), order[n - 1], parts, a)
        case Raised(_, _, _) => []
  }

  /** Only sources differ, and those by some of the attempts. */
  predicate PartlyCommitted(t: Tables, attempts: Sources, c: Tables) {
    c == t.(sources := c.sources) && PartlyRegistered(t.sources, attempts, c.sources)
  }

  /** The commits after `was` all hold some of the attempts on `t`. */
  ghost predicate PartlySince(t: Tables, attempts: Sources, was: seq<Tables>, commits: seq<Tables>) {
    was <= commits && forall i | |was| <= i < |commits| :: PartlyCommitted(t, attempts, commits[i])
  }

  /** The states committed once the n-th adapter raised. */
  ghost predicate RaiseSince(t: Tables, order: seq<Family>, keys: set<string>, runs: Family -> AdapterRun,
                             fileName: string -> string, n: nat, was: seq<Tables>, commits: seq<Tables>)
    requires n < |order| && runs(order[n]).Raised?
  {
    var m := NormalizeFamilies(t, order, runs, n);
    var u := Adapt(m, order[n], runs(order[n]).partial);
    PartlySince(u, Failures(u, order[n], keys, fileName, runs(order[n]).error),
                was + PartCommits(m, order[n], runs(order[n]).parts), commits)
  }

  /** The first n adapters finished: the tables and the commits since then. */
  ghost predicate FinishedTo(t: Tables, was: seq<Tables>, order: seq<Family>, runs: Family -> AdapterRun, n: nat,
                             u: Tables, commits: seq<Tables>)
    requires n <= |order|
  {
    && (forall i | 0 <= i < n :: runs(order[i]).Finished?)
    && u == NormalizeFamilies(t, order, runs, n) && commits == was + AdapterCommits(t, order, runs, n)
  }

  /** The n-th adapter raised after the others before it finished. */
  ghost predicate RaisedAt(t: Tables, was: seq<Tables>, order: seq<Family>, keys: set<string>,
                           runs: Family -> AdapterRun, fileName: string -> string, n: nat,
                           u: Tables, commits: seq<Tables>)
    requires n < |order|
  {
    && runs(order[n]).Raised? && (forall i | 0 <= i < n :: runs(order[i]).Finished?)
    && u == AfterRaise(t, order, keys, runs, fileName, n)
    && RaiseSince(t, order, keys, runs, fileName, n, was + AdapterCommits(t, order, runs, n), commits)
  }

  /** The loop over the adapters. A raising adapter marks its sources failed and ends the pass: what
      it already committed stays, and nothing is invalidated for it. */
  method NormalizeAdapters(db: CaseDb, order: seq<Family>, keys: set<string>, runs: Family -> AdapterRun,
                           fileName: string -> string)
    returns (raised: Option<nat>)
    modifies db
    ensures raised.None? ==> FinishedTo(old(db.View()), old(db.commits), order, runs, |order|, db.View(), db.commits)
    ensures raised.Some? ==> raised.value < |order|
    ensures raised.Some? ==>
              RaisedAt(old(db.View()), old(db.commits), order, keys, runs, fileName, raised.value, db.View(),
                       db.commits)
  {
    raised := AdapterLoop(db, db.View(), db.commits, order, keys, runs, fileName);
  }

  method AdapterLoop(db: CaseDb, ghost t: Tables, ghost was: seq<Tables>, order: seq<Family>, keys: set<string>,
                     runs: Family -> AdapterRun, fileName: string -> string)
    returns (raised: Option<nat>)
    requires FinishedTo(t, was, order, runs, 0, db.View(), db.commits)
    modifies db
    ensures raised.None? ==> FinishedTo(t, was, order, runs, |order|, db.View(), db.commits)
    ensures raised.Some? ==> raised.value < |order|
    ensures raised.Some? ==> RaisedAt(t, was, order, keys, runs, fileName, raised.value, db.View(), db.commits)
  {
    hide NormalizeFamilies, AdapterCommits;
    var n := 0;
    while n < |order|
      invariant 0 <= n <= |order| && FinishedTo(t, was, order, runs, n, db.View(), db.commits)
    {
      var ended := NormalizeNext(db, t, was, order, keys, runs, fileName, n);
      if ended { return Some(n); }
      n := n + 1;
    }
    raised := None;
  }

  lemma FinishedMore(t: Tables, was: seq<Tables>, order: seq<Family>, runs: Family -> AdapterRun, n: nat,
                     m: Tables, commits: seq<Tables>)
    requires n < |order| && runs(order[n]).Finished? && FinishedTo(t, was, order, runs, n, m, commits)
    ensures var parts, a := runs(order[n]).parts, runs(order[n]).result;
            FinishedTo(t, was, order, runs, n + 1, NormalizeFamily(m, order[n], a),
                       commits + FamilyCommits(m, order[n], parts, a))
  {
    var parts, a := runs(order[n]).parts, runs(order[n]).result;
    CommitsMore(t, order, runs, n);
    Appended(was, AdapterCommits(t, order, runs, n), FamilyCommits(m, order[n], parts, a));
  }

  lemma CommitsMore(t: Tables, order: seq<Family>, runs: Family -> AdapterRun, n: nat)
    requires n < |order| && runs(order[n]).Finished?
    ensures AdapterCommits(t, order, runs, n + 1)
         == AdapterCommits(t, order, runs, n)
            + FamilyCommits(NormalizeFamilies(t, order, runs, n), order[n], runs(order[n]).parts, runs(order[n]).result)
  {}

  lemma Appended(a: seq<Tables>, b: seq<Tables>, c: seq<Tables>)
    ensures a + (b + c) == (a + b) + c
  {}

  /** One turn of the loop. */
  method NormalizeNext(db: CaseDb, ghost t: Tables, ghost was: seq<Tables>, order: seq<Family>, keys: set<string>,
                       runs: Family -> AdapterRun, fileName: string -> string, n: nat)
    returns (ended: bool)
    requires n < |order| && FinishedTo(t, was, order, runs, n, db.View(), db.commits)
    modifies db
    ensures ended ==> RaisedAt(t, was, order, keys, runs, fileName, n, db.View(), db.commits)
    ensures !ended ==> FinishedTo(t, was, order, runs, n + 1, db.View(), db.commits)
  {
    ghost var m, commits := db.View(), db.commits;
    match runs(order[n]) {
      case Raised(parts, partial, error) =>
        HandleRaise(db, order[n], keys, parts, partial, fileName, error);
        ended := true;
      case Finished(parts, a) =>
        NormalizeOne(db, order[n], parts, a);
        FinishedMore(t, was, order, runs, n, m, commits);
        ended := false;
    }
  }

  /** One upsert after the other for the sources of the raising family, each with its own commit. */
  method RegisterFailures(db: CaseDb, failed: Sources)
    modifies db
    ensures db.View() == old(db.View()).(sources := RegisterAll(old(db.sources), failed))
    ensures PartlySince(old(db.View()), failed, old(db.commits), db.commits)
    ensures |db.commits| == |old(db.commits)| + |failed|
  {
    ghost var t, was := db.View(), db.commits;
    var ids := failed.Keys;
    var todo := ids;
    RegisterNone(t.sources, failed);
    while todo != {}
      invariant todo <= ids && |db.commits| == |was| + |ids| - |todo|
      invariant Registering(t, failed, was, ids - todo, db.View(), db.commits)
    {
      var k :| k in todo;
      assert ids - (todo - {k}) == ids - todo + {k};
      RegisterNext(db, t, failed, was, ids - todo, k, failed[k]);
      todo := todo - {k};
    }
    assert ids - todo == ids;
  }

  /** These of the attempts are registered, and nothing but attempts was committed on the way. */
  ghost predicate Registering(t: Tables, attempts: Sources, was: seq<Tables>, done: set<string>,
                              u: Tables, commits: seq<Tables>)
  {
    u == t.(sources := RegisterAll(t.sources, Only(attempts, done))) && PartlySince(t, attempts, was, commits)
  }

  method RegisterNext(db: CaseDb, ghost t: Tables, ghost attempts: Sources, ghost was: seq<Tables>,
                      ghost done: set<string>, k: string, attempt: Source)
    requires k in attempts && attempts[k] == attempt && k !in done
    requires Registering(t, attempts, was, done, db.View(), db.commits)
    modifies db
    ensures Registering(t, attempts, was, done + {k}, db.View(), db.commits)
    ensures |db.commits| == |old(db.commits)| + 1
  {
    RegisterMore(t.sources, attempts, done, k);
    OnlyIsPart(t.sources, attempts, done + {k});
    RegisterEvidenceSource(db, k, attempt);
  }

  /** One transaction of an adapter. */
  method WritePart(db: CaseDb, f: Family, a: Adapted)
    modifies db
    ensures db.View() == Adapt(old(db.View()), f, a)
    ensures db.commits == old(db.commits) + [db.View()]
  {
    db.evidence := db.evidence.With(f, a.tables);
    db.timeline := a.timeline;
    db.sources := a.sources;
    db.Commit();
  }

  /** The adapter's transactions: it works on one file after the other. */
  method ApplyAdapter(db: CaseDb, f: Family, parts: seq<Adapted>, a: Adapted)
    modifies db
    ensures db.View() == Adapt(old(db.View()), f, a)
    ensures db.commits == old(db.commits) + PartCommits(old(db.View()), f, parts) + [db.View()]
  {
    ghost var t, was := db.View(), db.commits;
    for n := 0 to |parts|
      invariant Over(t, f, db.View()) && db.commits == was + PartCommits(t, f, parts[..n])
    {
      AdaptOver(t, f, db.View(), parts[n]);
      PartsMore(t, f, parts, n);
      WritePart(db, f, parts[n]);
    }
    assert parts[..|parts|] == parts;
    AdaptOver(t, f, db.View(), a);
    WritePart(db, f, a);
  }

  /** Nothing but what the adapter of this family writes differs. */
  predicate Over(t: Tables, f: Family, u: Tables) {
    u == Adapt(t, f, Adapted(u.evidence.Get(f), u.timeline, u.sources))
  }

  lemma AdaptOver(t: Tables, f: Family, u: Tables, a: Adapted)
    requires Over(t, f, u)
    ensures Adapt(u, f, a) == Adapt(t, f, a) && Over(t, f, Adapt(t, f, a))
  {}

  lemma PartsMore(t: Tables, f: Family, parts: seq<Adapted>, n: nat)
    requires n < |parts|
    ensures PartCommits(t, f, parts[..n + 1]) == PartCommits(t, f, parts[..n]) + [Adapt(t, f, parts[n])]
  {
    assert parts[..n + 1][..n] == parts[..n];
  }

  /** A raising adapter's partial work, and the failures registered for its sources. */
  method HandleRaise(db: CaseDb, f: Family, keys: set<string>, parts: seq<Adapted>, partial: Adapted,
                     fileName: string -> string, error: string)
    modifies db
    ensures var u := Adapt(old(db.View()), f, partial);
            var failed := Failures(u, f, keys, fileName, error);
            && db.View() == u.(sources := RegisterAll(u.sources, failed))
            && PartlySince(u, failed, old(db.commits) + PartCommits(old(db.View()), f, parts), db.commits)
  {
    ApplyAdapter(db, f, parts, partial);
    ghost var u := db.View();
    var failed := Failures(db.View(), f, keys, fileName, error);
    StartsPartly(u, failed);
    RegisterFailures(db, failed);
  }

  lemma StartsPartly(t: Tables, attempts: Sources)
    ensures PartlyCommitted(t, attempts, t)
  {}

  function Fingerprints(t: Tables, f: Family): map<string, Option<Record>> {
    map id | id in Materialized(t, f) :: FingerprintOf(t.evidence, id)
  }

  /** `fetch_referenced_evidence_fingerprints` */
  method Survey(db: CaseDb, f: Family) returns (ids: set<string>, prints: map<string, Option<Record>>)
    ensures ids == Materialized(db.View(), f) && prints == Fingerprints(db.View(), f)
  {
    ids := Materialized(db.View(), f);
    prints := map id | id in ids :: FingerprintOf(db.evidence, id);
  }

  /** What differs between two surveys is what the adapter changed. */
  lemma ChangedByPrints(t: Tables, f: Family, a: Adapted, changed: set<string>)
    requires var before, after := Fingerprints(t, f), Fingerprints(Adapt(t, f, a), f);
             changed == set id | id in before && id in after && before[id] != after[id]
    ensures changed == Changed(t, f, a)
  {}

  /** Survey, adapt, survey. */
  method AdaptAndCompare(db: CaseDb, f: Family, parts: seq<Adapted>, a: Adapted)
    returns (removed: set<string>, changed: set<string>)
    modifies db
    ensures db.View() == Adapt(old(db.View()), f, a)
    ensures db.commits == old(db.commits) + PartCommits(old(db.View()), f, parts) + [db.View()]
    ensures removed == Removed(old(db.View()), f, a) && changed == Changed(old(db.View()), f, a)
  {
    hide PartCommits, Adapt, Materialized, Fingerprints;
    ghost var t := db.View();
    var idsBefore, before := Survey(db, f);
    ApplyAdapter(db, f, parts, a);
    var idsAfter, after := Survey(db, f);
    removed := idsBefore - idsAfter;
    changed := set id | id in before && id in after && before[id] != after[id];
    ChangedByPrints(t, f, a, changed);
  }

  /** The two invalidations after an adapter. */
  method InvalidateDamage(db: CaseDb, removed: set<string>, changed: set<string>)
    modifies db
    ensures db.View() == Invalidate(Invalidate(old(db.View()), removed, REMOVED), changed, CHANGED)
    ensures db.commits == old(db.commits)
            + (if removed == {} then [] else [Invalidate(old(db.View()), removed, REMOVED)])
                                          + (if changed == {} then [] else [db.View()])
  {
    InvalidateRemovedEvidence(db, removed, REMOVED);
    InvalidateRemovedEvidence(db, changed, CHANGED);
  }

  /** Survey, adapt, survey, invalidate the removed, invalidate the changed. */
  method NormalizeOne(db: CaseDb, f: Family, parts: seq<Adapted>, a: Adapted)
    modifies db
    ensures db.View() == NormalizeFamily(old(db.View()), f, a)
    ensures db.commits == old(db.commits) + FamilyCommits(old(db.View()), f, parts, a)
  {
    ghost var t, was := db.View(), db.commits;
    var removed, changed := AdaptAndCompare(db, f, parts, a);
    InvalidateDamage(db, removed, changed);
    FamilyCommitsAre(t, f, parts, a, was, removed, changed, db.View());
  }

  lemma FamilyCommitsAre(t: Tables, f: Family, parts: seq<Adapted>, a: Adapted, was: seq<Tables>, removed: set<string>,
                         changed: set<string>, u: Tables)
    requires removed == Removed(t, f, a) && changed == Changed(t, f, a) && u == NormalizeFamily(t, f, a)
    ensures was + PartCommits(t, f, parts) + [Adapt(t, f, a)]
                + (if removed == {} then [] else [Invalidate(Adapt(t, f, a), removed, REMOVED)])
                + (if changed == {} then [] else [u])
         == was + FamilyCommits(t, f, parts, a)
  {
    hide PartCommits, Adapt, NormalizeFamily, Invalidate, Removed, Changed;
    Regrouped(was, PartCommits(t, f, parts), [Adapt(t, f, a)],
              if removed == {} then [] else [Invalidate(Adapt(t, f, a), removed, REMOVED)],
              if changed == {} then [] else [u]);
  }

  lemma Regrouped(a: seq<Tables>, b: seq<Tables>, c: seq<Tables>, d: seq<Tables>, e: seq<Tables>)
    ensures a + b + c + d + e == a + (b + c + d + e)
  {
    Appended(a, b, c);
    Appended(a, b + c, d);
    Appended(a, b + c + d, e);
  }
}
