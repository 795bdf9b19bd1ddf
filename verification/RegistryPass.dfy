/** The normalization pass over all registry datasets (`evidence/registry.py`): one transaction per
    dataset, lineage replacement inside the pass, and what survives it. */
module RegistryPass {
  import opened Common
  import opened EvidenceSources
  import opened RegistryTables
  import TextOrder

  // ---------------------------------------------------------------- the pass as a function

  datatype Progress = Progress(state: Reg, total: nat, raised: bool)

  predicate Selected(row: DatasetRow, keys: Option<set<string>>) {
    keys.None? || exists k | k in row.members :: k in keys.value && k != ""
  }

  function Step(p: Progress, paths: map<string, string>, raw: string -> Raw, keys: Option<set<string>>,
                d: string): Progress
  {
    if p.raised || d !in p.state.datasets || !Selected(p.state.datasets[d], keys) then p
    else
      var o := RawOutcome(raw(d));
      Progress(Normalize(p.state, paths, d, o), p.total + (if o.Success? then |o.records| else 0), o.Crashed?)
  }

  function Pass(s: Reg, paths: map<string, string>, raw: string -> Raw, keys: Option<set<string>>,
                order: seq<string>): Progress
  {
    if order == [] then Progress(s, 0, false)
    else Step(Pass(s, paths, raw, keys, order[..|order| - 1]), paths, raw, keys, order[|order| - 1])
  }

  // ---------------------------------------------------------------- the methods

  class RegistryDb {
    var datasets: map<string, DatasetRow>
    var artifacts: map<ArtifactId, RawRecord>
    var timeline: map<ArtifactId, int>
    var caseTimeline: map<CaseEntry, int>
    var sources: Sources

    constructor (s: Reg)
      ensures View() == s
    {
      datasets, artifacts, timeline := s.datasets, s.artifacts, s.timeline;
      caseTimeline, sources := s.caseTimeline, s.sources;
    }

    function View(): Reg
      reads this
    { Reg(datasets, artifacts, timeline, caseTimeline, sources) }

    method Set(s: Reg)
      modifies this
      ensures View() == s
    {
      datasets, artifacts, timeline := s.datasets, s.artifacts, s.timeline;
      caseTimeline, sources := s.caseTimeline, s.sources;
    }
  }

  lemma {:induction false} FirstBadLineDecides(lines: seq<Line>, i: nat)
    requires i <= |lines| && !OutcomeOf(lines[..i]).Success?
    ensures OutcomeOf(lines) == OutcomeOf(lines[..i])
  {
    if i == |lines| {
      assert lines[..i] == lines;
    } else {
      assert lines[..|lines| - 1][..i] == lines[..i];
      FirstBadLineDecides(lines[..|lines| - 1], i);
    }
  }

  /** Line by line into the artifact and timeline tables, until a line cannot be used. */
  method InsertLines(db: RegistryDb, d: string, lines: seq<Line>) returns (o: Outcome)
    modifies db
    ensures o == OutcomeOf(lines)
    ensures o.Success? ==> db.View() == InsertAll(old(db.View()), d, o.records)
  {
    var records: seq<RawRecord> := [];
    for i := 0 to |lines|
      invariant OutcomeOf(lines[..i]) == Success(records)
      invariant db.View() == InsertAll(old(db.View()), d, records)
    {
      assert lines[..i + 1][..i] == lines[..i];
      match lines[i] {
        case Invalid =>
          FirstBadLineDecides(lines, i + 1);
          return Malformed;
        case Crashing =>
          FirstBadLineDecides(lines, i + 1);
          return Crashed;
        case Valid(r) =>
          var next := records + [r];
          assert next[..|next| - 1] == records;
          db.Set(Insert(db.View(), d, |records|, r));
          records := next;
      }
    }
    assert lines[..|lines|] == lines;
    o := Success(records);
  }

  /** One member source after the other. */
  method ProjectSourceState(db: RegistryDb, ids: seq<string>, status: IngestStatus, rowCount: nat, errorCode: string)
    modifies db`sources
    ensures db.sources == Project(old(db.sources), ids, status, rowCount, errorCode)
  {
    assert ids[..0] == [];
    for i := 0 to |ids|
      invariant db.sources == Project(old(db.sources), ids[..i], status, rowCount, errorCode)
    {
      assert ids[..i + 1][..i] == ids[..i];
      db.sources := Register(db.sources, ids[i],
                             MemberRow(MemberStatus(status, rowCount), if i == 0 then rowCount else 0, errorCode));
    }
    assert ids[..|ids|] == ids;
  }

  method RecordBroken(db: RegistryDb, d: string, status: IngestStatus, code: string)
    requires d in db.datasets
    modifies db
    ensures db.View() == MarkBroken(old(db.View()), d, status, code)
  {
    var row := db.datasets[d];
    db.datasets := db.datasets[d := row.(status := status, errorCode := code)];
    ProjectSourceState(db, OrderedIds(row.members), status, 0, code);
  }

  /** The tail of a successful transaction: the dataset's state, then the datasets it replaces. */
  method FinishSuccess(db: RegistryDb, paths: map<string, string>, d: string, n: nat)
    requires d in db.datasets
    modifies db
    ensures var t := MarkNormalized(FeedTimeline(old(db.View()), d), d, n);
            db.View() == Dropped(t, Replaced(t, paths, d))
  {
    db.Set(FeedTimeline(db.View(), d));
    var row := db.datasets[d];
    db.datasets := db.datasets[d := row.(status := Normalized, rowCount := n, errorCode := "")];
    ProjectSourceState(db, OrderedIds(row.members), Normalized, n, "");
    db.Set(Dropped(db.View(), Replaced(db.View(), paths, d)));
  }

  /** One dataset: parsed completely inside a transaction that a bad line rolls back. */
  method NormalizeDataset(db: RegistryDb, paths: map<string, string>, d: string, raw: Raw) returns (o: Outcome)
    requires d in db.datasets
    modifies db
    ensures o == RawOutcome(raw)
    ensures db.View() == Normalize(old(db.View()), paths, d, o)
  {
    if raw.Missing? {
      RecordBroken(db, d, Failed, "raw_missing");
      return RawMissing;
    }
    var begin := db.View();
    db.Set(WithoutRows(begin, {d}));
    o := InsertLines(db, d, raw.lines);
    match o {
      case Success(records) =>
        FinishSuccess(db, paths, d, |records|);
      case Malformed =>
        db.Set(begin);
        RecordBroken(db, d, Partial, "raw_malformed");
      case Crashed =>
        db.Set(begin);
        RecordBroken(db, d, Failed, "normalize_error");
      case RawMissing => NeverMissing(raw.lines);
    }
  }

  lemma {:induction false} NeverMissing(lines: seq<Line>)
    ensures OutcomeOf(lines) != RawMissing
  {
    if lines != [] { NeverMissing(lines[..|lines| - 1]); }
  }

  /** The datasets with a raw path, in the order of their ids. */
  ghost predicate Snapshot(s: Reg, order: seq<string>) {
    TextOrder.Ascending(order) && forall d :: d in order <==> d in s.datasets && s.datasets[d].rawPath != ""
  }

  /** `normalize_registry` */
  method NormalizeRegistry(db: RegistryDb, paths: map<string, string>, raw: string -> Raw, keys: Option<set<string>>)
    returns (total: nat, raised: bool, ghost order: seq<string>)
    modifies db
    ensures Snapshot(old(db.View()), order)
    ensures Progress(db.View(), total, raised) == Pass(old(db.View()), paths, raw, keys, order)
  {
    hide Normalize, RawOutcome, Selected, TextOrder.Ascending;
    var rows := TextOrder.Sorted(set d | d in db.datasets && db.datasets[d].rawPath != "");
    order := rows;
    total, raised := 0, false;
    assert rows[..0] == [];
    var i := 0;
    while i < |rows| && !raised
      invariant 0 <= i <= |rows|
      invariant Progress(db.View(), total, raised) == Pass(old(db.View()), paths, raw, keys, rows[..i])
    {
      var d := rows[i];
      assert rows[..i + 1][..i] == rows[..i];
      if d in db.datasets && Selected(db.datasets[d], keys) {
        var o := NormalizeDataset(db, paths, d, raw(d));
        match o {
          case Success(records) => total := total + |records|;
          case Crashed => raised := true;
          case _ =>
        }
      }
      i := i + 1;
    }
    if raised {
      RaisedStays(old(db.View()), paths, raw, keys, rows, i);
    } else {
      assert rows[..i] == rows;
    }
  }

  lemma {:induction false} RaisedStays(s: Reg, paths: map<string, string>, raw: string -> Raw,
                                       keys: Option<set<string>>, order: seq<string>, i: nat)
    requires i <= |order| && Pass(s, paths, raw, keys, order[..i]).raised
    ensures Pass(s, paths, raw, keys, order) == Pass(s, paths, raw, keys, order[..i])
  {
    if i == |order| {
      assert order[..i] == order;
    } else {
      assert order[..|order| - 1][..i] == order[..i];
      RaisedStays(s, paths, raw, keys, order[..|order| - 1], i);
    }
  }
}
