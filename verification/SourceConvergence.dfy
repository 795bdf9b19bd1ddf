/** A whole source pass: what is superseded is decided first, the adapters run, source states are
    measured, and only then are superseded sources retired (`pipeline.py`, `evidence/normalize.py`,
    `evidence/invalidation.py`). */
module SourceConvergence {
  import opened Common
  import opened EvidenceSources
  import opened Invalidation
  import opened CaseDatabase
  import opened NormalizePass
  import opened SourceReplacement

  // ---------------------------------------------------------------- measuring the sources

  datatype RawState = RawEmpty | RawNonempty | RawMissing

  /** Hosts, channels and times found in a source's rows. */
  datatype Extent = Extent(hosts: seq<string>, channels: seq<string>, minTime: Option<int>, maxTime: Option<int>)

  /** What the row counts cannot say: the raw files on disk, the hosts, channels and times of the
      rows, and the keys whose update raised (they are logged and skipped). */
  datatype Surroundings = Surroundings(raw: (Family, string) -> RawState,
                                       extent: (FamilyTables, string) -> Extent,
                                       skipped: set<string>)

  function RowCount(t: FamilyTables, source: string): nat {
    |set id | id in t.rows && SourceFileOf(t.rows[id]) == source|
  }

  /** The attempt registered for one source. */
  function Measurement(t: Tables, w: Surroundings, k: string): Source
    requires k in t.files
  {
    var f := t.files[k].kind;
    var n := RowCount(t.evidence.Get(f), k);
    var x := w.extent(t.evidence.Get(f), k);
    var failed := n == 0 && w.raw(f, k) != RawEmpty;
    Source(f, "", if failed then Failed else if n > 0 then Normalized else Empty, FamilyName(f), "", n,
           if |x.channels| == 1 then x.channels[0] else "", x.hosts, "", x.minTime, x.maxTime,
           if failed then "normalized_rows_missing" else "",
           if !failed then "" else if w.raw(f, k) == RawNonempty then NO_ROWS else NO_RAW)
  }

  const NO_ROWS := "Raw parser output was non-empty but no normalized rows were found"
  const NO_RAW := "Raw parser output file is missing"

  /** The file-based sources among the keys. */
  function MeasuredKeys(files: Files, w: Surroundings, keys: set<string>): set<string> {
    set k | k in keys && k in files && k != "" && files[k].kind != Registry && k !in w.skipped
  }

  function Measurements(t: Tables, w: Surroundings, keys: set<string>): Sources {
    map k | k in MeasuredKeys(t.files, w, keys) :: Measurement(t, w, k)
  }

  function UpdateStatus(t: Tables, w: Surroundings, keys: set<string>): Tables {
    t.(sources := RegisterAll(t.sources, Measurements(t, w, keys)))
  }

  /** `_update_source_status`: one upsert per source, each with its own commit. */
  method UpdateSourceStatus(db: CaseDb, w: Surroundings, keys: set<string>)
    modifies db
    ensures db.View() == UpdateStatus(old(db.View()), w, keys)
    ensures PartlySince(old(db.View()), Measurements(old(db.View()), w, keys), old(db.commits), db.commits)
  {
    ghost var t, was := db.View(), db.commits;
    ghost var attempts := Measurements(t, w, keys);
    var ids := MeasuredKeys(db.files, w, keys);
    var todo := ids;
    RegisterNone(t.sources, attempts);
    while todo != {}
      invariant todo <= ids
      invariant Registering(t, attempts, was, ids - todo, db.View(), db.commits)
    {
      var k :| k in todo;
      assert ids - (todo - {k}) == ids - todo + {k};
      SameMeasurement(t, db.View(), w, k);
      RegisterNext(db, t, attempts, was, ids - todo, k, Measurement(db.View(), w, k));
      todo := todo - {k};
    }
    assert ids - todo == attempts.Keys;
  }

  lemma SameMeasurement(t: Tables, u: Tables, w: Surroundings, k: string)
    requires u.files == t.files && u.evidence == t.evidence && k in t.files
    ensures Measurement(u, w, k) == Measurement(t, w, k)
  {}

  /** After an update a source is ready exactly when it has rows, or its raw file is there and empty. */
  lemma ReadyMeans(t: Tables, w: Surroundings, keys: set<string>, k: string)
    requires k in MeasuredKeys(t.files, w, keys)
    ensures var s := UpdateStatus(t, w, keys).sources[k];
            var f := t.files[k].kind;
            s.family == f && (Ready(s.status) <==> RowCount(t.evidence.Get(f), k) > 0 || w.raw(f, k) == RawEmpty)
  {}

  lemma CountNamed(t: FamilyTables, source: string)
    requires source != ""
    ensures RowCount(t, source)
         == |set id | id in t.rows && "source_file" in t.rows[id] && t.rows[id]["source_file"] == source|
  {
    assert (set id | id in t.rows && SourceFileOf(t.rows[id]) == source)
        == set id | id in t.rows && "source_file" in t.rows[id] && t.rows[id]["source_file"] == source;
  }

  /** The row the update leaves: normalized with as many rows as name the source; empty, if none does and
      the raw file is there and empty; and failed otherwise, with the count it had. A source that is no
      file-based key, or whose update raised, keeps its row. */
  lemma MeasuredRow(t: Tables, w: Surroundings, keys: set<string>, k: string)
    requires k in t.sources || k in keys
    ensures var u := UpdateStatus(t, w, keys).sources;
            if k in keys && k != "" && k in t.files && t.files[k].kind != Registry && k !in w.skipped then
              var f := t.files[k].kind;
              var rows := t.evidence.Get(f).rows;
              var n := |set id | id in rows && "source_file" in rows[id] && rows[id]["source_file"] == k|;
              && k in u && u[k].family == f
              && if n > 0 then u[k].status == Normalized && u[k].rowCount == n && u[k].errorCode == ""
                 else if w.raw(f, k) == RawEmpty then u[k].status == Empty && u[k].rowCount == 0 && u[k].errorCode == ""
                 else && u[k].status == Failed && u[k].errorCode == "normalized_rows_missing"
                      && u[k].rowCount == if k in t.sources then t.sources[k].rowCount else 0
            else (k in u <==> k in t.sources) && (k in u ==> u[k] == t.sources[k])
  {
    if k in t.files && k != "" { CountNamed(t.evidence.Get(t.files[k].kind), k); }
    hide RowCount;
  }

  /** Its other columns: the hosts, the times and the one channel found in the rows, unless it failed; then
      those of the row before stay, and the reason says what became of the raw file. */
  lemma MeasuredColumns(t: Tables, w: Surroundings, keys: set<string>, k: string)
    requires k in keys && k != "" && k in t.files && t.files[k].kind != Registry && k !in w.skipped
    ensures var u, f := UpdateStatus(t, w, keys).sources, t.files[k].kind;
            var x := w.extent(t.evidence.Get(f), k);
            && k in u && u[k].parser == FamilyName(f)
            && (u[k].status != Failed ==>
                  && u[k].hosts == x.hosts && u[k].minTime == x.minTime && u[k].maxTime == x.maxTime
                  && u[k].errorSummary == ""
                  && (forall c :: x.channels == [c] ==> u[k].channel == c)
                  && (|x.channels| != 1 ==> u[k].channel == ""))
            && (u[k].status == Failed ==>
                  && u[k].errorSummary == (if w.raw(f, k) == RawNonempty then NO_ROWS else NO_RAW)
                  && (k in t.sources ==> && u[k].hosts == t.sources[k].hosts && u[k].channel == t.sources[k].channel
                                         && u[k].minTime == t.sources[k].minTime
                                         && u[k].maxTime == t.sources[k].maxTime))
  {}

  // ---------------------------------------------------------------- retirement, one family at a time

  /** What one family's retirement looks at and may change. */
  datatype FamilyView = FamilyView(tables: FamilyTables, files: Files, sources: Sources)

  function ViewOf(t: Tables, f: Family): FamilyView {
    FamilyView(t.evidence.Get(f),
               map k | k in t.files && t.files[k].kind == f :: t.files[k],
               map k | k in t.sources && k in t.files && t.files[k].kind == f :: t.sources[k])
  }

  lemma EligibleByView(t: Tables, u: Tables, f: Family, replaced: map<string, string>)
    requires ViewOf(t, f) == ViewOf(u, f)
    ensures EligibleSources(t, f, replaced) == EligibleSources(u, f, replaced)
  {
    var x, y := ViewOf(t, f), ViewOf(u, f);
    forall k ensures k in EligibleSources(t, f, replaced) <==> k in EligibleSources(u, f, replaced) {
      assert k in x.files <==> k in y.files;
      if k in replaced && k in x.files {
        assert x.files[k] == y.files[k];
        assert replaced[k] in x.files <==> replaced[k] in y.files;
        assert replaced[k] in x.sources <==> replaced[k] in y.sources;
      }
    }
  }

  /** What retirement does to the tables invalidation leaves alone. */
  lemma RetiredParts(t: Tables, f: Family, replaced: map<string, string>)
    ensures var v := RetireFamily(t, f, replaced);
            var gone := if f == Registry then {} else EligibleSources(t, f, replaced);
            && v.files == t.files - gone && v.sources == t.sources - gone
            && v.evidence == t.evidence.With(f, if gone == {} then t.evidence.Get(f)
                                                else Without(t.evidence.Get(f), gone))
  {
    var gone := EligibleSources(t, f, replaced);
    if f == Registry || gone == {} {
      assert t.files - {} == t.files && t.sources - {} == t.sources;
    } else {
      InvalidateFrame(t, RetiredEvidence(t, f, gone), REMOVED);
      DeletedParts(Invalidate(t, RetiredEvidence(t, f, gone), REMOVED), f, gone);
    }
  }

  /** A source is retired if and only if it was marked as replaced and its replacement is an ingested
      file of the same path and family whose row is of that family and ready. */
  lemma RetiredIff(t: Tables, f: Family, replaced: map<string, string>, k: string)
    requires k in t.files
    ensures k !in RetireFamily(t, f, replaced).files <==>
            && f != Registry && k in replaced && t.files[k].kind == f && t.files[k].path != ""
            && var c := replaced[k];
               && c in t.files && t.files[c].kind == f && t.files[c].path == t.files[k].path
               && c in t.sources && t.sources[c].family == f && t.sources[c].status in {Normalized, Empty}
  {
    RetiredParts(t, f, replaced);
  }

  /** The sources a retirement takes, and the tables of its family without them. */
  lemma RetiredSources(t: Tables, f: Family, replaced: map<string, string>) returns (gone: set<string>)
    ensures var v := RetireFamily(t, f, replaced);
            && gone == t.files.Keys - v.files.Keys
            && gone == (if f == Registry then {} else EligibleSources(t, f, replaced))
            && v.files == t.files - gone && v.sources == t.sources - gone
            && v.evidence == t.evidence.With(f, Without(t.evidence.Get(f), gone))
  {
    hide RetireFamily, Without;
    RetiredParts(t, f, replaced);
    gone := if f == Registry then {} else EligibleSources(t, f, replaced);
    NothingWithout(t.evidence.Get(f));
  }

  lemma NothingWithout(x: FamilyTables)
    ensures Without(x, {}) == x
  {}

  /** With a retired source exactly its own rows go: its ingest record, its source row, and the evidence
      rows and parts read from it. Nothing of another family or source does. */
  lemma RetiredRows(t: Tables, f: Family, replaced: map<string, string>)
    ensures var v := RetireFamily(t, f, replaced);
            var gone := t.files.Keys - v.files.Keys;
            && v.files == t.files - gone && v.sources == t.sources - gone
            && (forall g | g != f :: v.evidence.Get(g) == t.evidence.Get(g))
            && RowsWithout(t.evidence.Get(f), v.evidence.Get(f), gone)
  {
    hide RetireFamily, EligibleSources, RowsWithout, Without;
    var gone := RetiredSources(t, f, replaced);
    WithoutMeans(t.evidence.Get(f), gone);
  }

  /** Exactly the rows and parts read from one of these sources are missing, and nothing else changed. */
  ghost predicate RowsWithout(x: FamilyTables, y: FamilyTables, gone: set<string>) {
    && (forall id :: id in y.rows <==>
                     id in x.rows && (if "source_file" in x.rows[id] then x.rows[id]["source_file"] else "") !in gone)
    && (forall id | id in y.rows :: y.rows[id] == x.rows[id])
    && (forall p :: p in y.aux <==> p in x.aux && p.1 !in gone)
  }

  lemma WithoutMeans(x: FamilyTables, gone: set<string>)
    ensures RowsWithout(x, Without(x, gone), gone)
  {}

  /** With them go the timeline entries of evidence of which some row or part was theirs. */
  lemma RetiredTimeline(t: Tables, f: Family, replaced: map<string, string>, e: string)
    requires e in t.timeline
    ensures var v := RetireFamily(t, f, replaced);
            && (e in v.timeline <==>
                  t.timeline[e] == "" || !t.evidence.Get(f).HasFrom(t.timeline[e], t.files.Keys - v.files.Keys))
            && (e in v.timeline ==> v.timeline[e] == t.timeline[e])
  {
    var gone := RetiredSources(t, f, replaced);
    if gone != {} { InvalidateFrame(t, RetiredEvidence(t, f, gone), REMOVED); }
  }

  lemma DeletedParts(t: Tables, f: Family, gone: set<string>)
    ensures var v := Deleted(t, f, gone);
            && v.files == t.files - gone && v.sources == t.sources - gone
            && v.evidence == t.evidence.With(f, Without(t.evidence.Get(f), gone))
  {}

  lemma RetiredView(t: Tables, f: Family, replaced: map<string, string>)
    requires f != Registry
    ensures var gone := EligibleSources(t, f, replaced);
            ViewOf(RetireFamily(t, f, replaced), f)
            == if gone == {} then ViewOf(t, f)
               else FamilyView(Without(t.evidence.Get(f), gone), ViewOf(t, f).files - gone, ViewOf(t, f).sources - gone)
  {
    RetiredParts(t, f, replaced);
  }

  lemma RetireByView(t: Tables, u: Tables, f: Family, replaced: map<string, string>)
    requires ViewOf(t, f) == ViewOf(u, f)
    ensures ViewOf(RetireFamily(t, f, replaced), f) == ViewOf(RetireFamily(u, f, replaced), f)
  {
    EligibleByView(t, u, f, replaced);
    if f != Registry {
      RetiredView(t, f, replaced);
      RetiredView(u, f, replaced);
    }
  }

  lemma SmallerView(t: Tables, u: Tables, gone: set<string>, g: Family)
    requires u.files == t.files - gone && u.sources == t.sources - gone && u.evidence.Get(g) == t.evidence.Get(g)
    requires forall k | k in gone && k in t.files :: t.files[k].kind != g
    ensures ViewOf(u, g) == ViewOf(t, g)
  {
    var x, y := ViewOf(t, g), ViewOf(u, g);
    assert x.files == y.files;
    assert x.sources == y.sources;
  }

  lemma OtherViewsKept(t: Tables, f: Family, g: Family, replaced: map<string, string>)
    requires f != g
    ensures ViewOf(RetireFamily(t, f, replaced), g) == ViewOf(t, g)
  {
    RetiredParts(t, f, replaced);
    SmallerView(t, RetireFamily(t, f, replaced), if f == Registry then {} else EligibleSources(t, f, replaced), g);
  }

  /** Retiring family after family does to each family what retiring it alone would. */
  lemma {:induction false} FamiliesIndependent(t: Tables, order: seq<Family>, r: Replacements, f: Family)
    requires Distinct(order)
    ensures ViewOf(RetireAll(t, order, r), f)
         == if f in order && f in r then ViewOf(RetireFamily(t, f, r[f]), f) else ViewOf(t, f)
  {
    if order != [] {
      var n := |order| - 1;
      var g, before := order[n], RetireAll(t, order[..n], r);
      FamiliesIndependent(t, order[..n], r, f);
      assert order == order[..n] + [g];
      if g in r {
        if g == f {
          assert f !in order[..n];
          RetireByView(before, t, f, r[f]);
        } else {
          OtherViewsKept(before, g, f, r[g]);
        }
      }
    }
  }

  // ---------------------------------------------------------------- convergence

  /** No row of the family comes from this source. */
  predicate NoRowsFrom(t: FamilyTables, source: string) {
    (forall id | id in t.rows :: SourceFileOf(t.rows[id]) != source) && (forall p | p in t.aux :: p.1 != source)
  }

  lemma WithoutHasNone(t: FamilyTables, from: set<string>, source: string)
    requires source in from
    ensures NoRowsFrom(Without(t, from), source)
  {}

  /** One retirement round after a decision over any keys: of a path that has a key, either the newest
      source among the keys is ready and alone remains, with no row left from the others; or nothing
      of the path is touched. `files` are the files the decision saw and `t` the tables after the
      adapters and the status update. */
  lemma Converges(files: Files, keys: Option<set<string>>, t: Tables, r: Replacements, order: seq<Family>,
                  f: Family, path: string, current: string)
    requires t.files == files
    requires ReplacementsOf(files, keys, r)
    requires Ordered(order, r)
    requires f != Registry && path != "" && current != ""
    requires IsFirst(files, Pool(files, keys) * Group(files, f, path), current)
    ensures var v := RetireAll(t, order, r);
            if ReplacementReady(t, f, path, current)
            then Group(v.files, f, path) - {""} == {current}
                 && forall k | k in Group(files, f, path) && k !in {"", current} ::
                      k !in v.sources && NoRowsFrom(v.evidence.Get(f), k)
            else Group(v.files, f, path) == Group(files, f, path)
  {
    forall k | k in Group(files, f, path)
      ensures (f in r && k in r[f]) <==> k !in {"", current}
      ensures f in r && k in r[f] ==> r[f][k] == current
    {
      MemberReplaced(files, keys, r, f, path, current, k);
    }
    if f !in r {
      FamiliesIndependent(t, order, r, f);
      GroupByView(RetireAll(t, order, r), f, path);
      GroupByView(t, f, path);
    } else {
      GroupConverges(t, order, r, f, path, current);
      if ReplacementReady(t, f, path, current) {
        forall k | k in Group(files, f, path) && k !in {"", current}
          ensures k !in RetireAll(t, order, r).sources && NoRowsFrom(RetireAll(t, order, r).evidence.Get(f), k)
        {
          MemberConverges(t, order, r, f, path, current, k);
        }
      }
    }
  }

  /** The decision, as seen from one path. */
  ghost predicate PathDecided(t: Tables, f: Family, path: string, current: string, replaced: map<string, string>) {
    forall k | k in Group(t.files, f, path) ::
      (k in replaced <==> k !in {"", current}) && (k in replaced ==> replaced[k] == current)
  }

  lemma GroupConverges(t: Tables, order: seq<Family>, r: Replacements, f: Family, path: string, current: string)
    requires Distinct(order) && f in order && f in r && f != Registry
    requires path != "" && current != "" && current in Group(t.files, f, path)
    requires PathDecided(t, f, path, current, r[f])
    ensures var v := RetireAll(t, order, r);
            if ReplacementReady(t, f, path, current)
            then Group(v.files, f, path) - {""} == {current}
            else Group(v.files, f, path) == Group(t.files, f, path)
  {
    FamiliesIndependent(t, order, r, f);
    RetiredView(t, f, r[f]);
    GroupAfter(t, f, path, current, r[f]);
    GroupByView(t, f, path);
    GroupByView(RetireAll(t, order, r), f, path);
    assert Group(RetireAll(t, order, r).files, f, path) == Group(t.files, f, path) - EligibleSources(t, f, r[f]);
  }

  lemma MemberConverges(t: Tables, order: seq<Family>, r: Replacements, f: Family, path: string, current: string,
                        k: string)
    requires Distinct(order) && f in order && f in r && f != Registry
    requires path != "" && current in Group(t.files, f, path)
    requires PathDecided(t, f, path, current, r[f])
    requires ReplacementReady(t, f, path, current) && k in Group(t.files, f, path) && k !in {"", current}
    ensures k !in RetireAll(t, order, r).sources && NoRowsFrom(RetireAll(t, order, r).evidence.Get(f), k)
  {
    GroupAfter(t, f, path, current, r[f]);
    assert k in EligibleSources(t, f, r[f]);
    FamiliesIndependent(t, order, r, f);
    RetiredView(t, f, r[f]);
    WithoutHasNone(t.evidence.Get(f), EligibleSources(t, f, r[f]), k);
    RetiredSourcesGone(t, order, r, f, k);
  }

  lemma MemberReplaced(files: Files, keys: Option<set<string>>, r: Replacements, f: Family, path: string,
                       current: string, k: string)
    requires ReplacementsOf(files, keys, r)
    requires f != Registry && path != "" && current != ""
    requires IsFirst(files, Pool(files, keys) * Group(files, f, path), current)
    requires k in Group(files, f, path)
    ensures f in r && k in r[f] <==> k !in {"", current}
    ensures f in r && k in r[f] ==> r[f][k] == current
  {
    if k !in {"", current} {
      assert Superseded(files, keys, f, k, current);
      assert Entry(r, f, k, current);
    }
    if f in r && k in r[f] {
      assert Entry(r, f, k, r[f][k]);
      assert Superseded(files, keys, f, k, r[f][k]);
      FirstIsUnique(files, Pool(files, keys) * Group(files, f, path), current, r[f][k]);
    }
  }

  lemma GroupByView(t: Tables, f: Family, path: string)
    ensures Group(t.files, f, path) == set k | k in ViewOf(t, f).files && ViewOf(t, f).files[k].path == path
  {}

  /** Which members of a path one retirement takes. */
  lemma GroupAfter(t: Tables, f: Family, path: string, current: string, replaced: map<string, string>)
    requires path != "" && current in Group(t.files, f, path)
    requires PathDecided(t, f, path, current, replaced)
    ensures EligibleSources(t, f, replaced) * Group(t.files, f, path)
         == if ReplacementReady(t, f, path, current) then Group(t.files, f, path) - {"", current} else {}
  {}

  /** A retired source's row in the source table is gone for good. */
  lemma RetiredSourcesGone(t: Tables, order: seq<Family>, r: Replacements, f: Family, k: string)
    requires Distinct(order) && f in order && f in r && f != Registry
    requires k in EligibleSources(t, f, r[f])
    ensures k !in RetireAll(t, order, r).sources
  {
    var n := |order| - 1;
    var before := RetireAll(t, order[..n], r);
    assert order == order[..n] + [order[n]];
    if order[n] == f {
      FamiliesIndependent(t, order[..n], r, f);
      assert f !in order[..n];
      EligibleByView(before, t, f, r[f]);
    } else {
      RetiredSourcesGone(t, order[..n], r, f, k);
      if order[n] in r { SourcesOnlyShrink(before, order[n], r[order[n]]); }
    }
  }

  lemma SourcesOnlyShrink(t: Tables, f: Family, replaced: map<string, string>)
    ensures RetireFamily(t, f, replaced).sources.Keys <= t.sources.Keys
    ensures RetireFamily(t, f, replaced).files.Keys <= t.files.Keys
  {}

  // ---------------------------------------------------------------- safety of every step

  /** At every single transaction of a retirement, a source that disappears leaves a ready source of
      the same path and family behind, and rows disappear only with their source. */
  lemma RetireSafe(t: Tables, f: Family, replaced: map<string, string>)
    requires forall k | k in replaced :: replaced[k] !in replaced
    ensures var v := RetireFamily(t, f, replaced);
            && (forall k | k in t.files && k !in v.files ::
                  k in replaced && t.files[k].kind == f && ReplacementReady(t, f, t.files[k].path, replaced[k])
                  && ReplacementReady(v, f, t.files[k].path, replaced[k]))
            && (forall g, id | id in t.evidence.Get(g).rows && id !in v.evidence.Get(g).rows ::
                  g == f && SourceFileOf(t.evidence.Get(g).rows[id]) in t.files.Keys - v.files.Keys)
            && (forall g, p | p in t.evidence.Get(g).aux && p !in v.evidence.Get(g).aux ::
                  g == f && p.1 in t.files.Keys - v.files.Keys)
  {
    var gone := EligibleSources(t, f, replaced);
    InvalidateKeeps(t, RetiredEvidence(t, f, gone), REMOVED);
    if f != Registry && gone != {} {
      var v := RetireFamily(t, f, replaced);
      assert v.files == t.files - gone && v.sources == t.sources - gone;
      forall k | k in gone ensures ReplacementReady(v, f, t.files[k].path, replaced[k]) {
        assert replaced[k] !in gone;
      }
    }
  }
}
