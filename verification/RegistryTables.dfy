/** The registry tables and what normalizing one dataset does to them (`evidence/registry.py`).
    Artifact and timeline ids are hashes of their dataset, ordinal and content, and are modelled by
    those; timestamps of the updates themselves are left out. */
module RegistryTables {
  import opened Common
  import opened EvidenceSources
  import TextScan

  datatype DatasetRow = DatasetRow(identity: string, members: seq<string>, rawPath: string, parser: string,
                                   status: IngestStatus, rowCount: nat, errorCode: string)

  datatype ArtifactId = ArtifactId(dataset: string, ordinal: nat, content: string)

  datatype RawRecord = RawRecord(content: string, timestamp: Option<int>)

  /** An entry of the case timeline; registry entries carry the id of their registry timeline row. */
  datatype CaseEntry = RegistryEntry(id: ArtifactId) | OtherEntry(key: string)

  datatype Reg = Reg(datasets: map<string, DatasetRow>, artifacts: map<ArtifactId, RawRecord>,
                     timeline: map<ArtifactId, int>, caseTimeline: map<CaseEntry, int>, sources: Sources)

  /** One line of a raw file: a record, something that is no JSON object, or one whose processing
      raises anything else. */
  datatype Line = Valid(record: RawRecord) | Invalid | Crashing

  datatype Raw = Missing | Lines(lines: seq<Line>)

  datatype Outcome = Success(records: seq<RawRecord>) | RawMissing | Malformed | Crashed

  /** The first line that is not a record decides. */
  function OutcomeOf(lines: seq<Line>): Outcome {
    if lines == [] then Success([])
    else
      match OutcomeOf(lines[..|lines| - 1])
      case Success(records) =>
        (match lines[|lines| - 1]
         case Valid(r) => Success(records + [r])
         case Invalid => Malformed
         case Crashing => Crashed)
      case o => o
  }

  function RawOutcome(raw: Raw): Outcome {
    match raw
    case Missing => RawMissing
    case Lines(ls) => OutcomeOf(ls)
  }

  // ---------------------------------------------------------------- member sources

  /** `dict.fromkeys(...)` over the nonempty ids. */
  function OrderedIds(members: seq<string>): seq<string> {
    if members == [] then []
    else
      var before, last := OrderedIds(members[..|members| - 1]), members[|members| - 1];
      if last == "" || last in before then before else before + [last]
  }

  lemma {:induction false} OrderedIdsFacts(members: seq<string>)
    ensures forall i, j | 0 <= i < j < |OrderedIds(members)| :: OrderedIds(members)[i] != OrderedIds(members)[j]
    ensures forall k :: k in OrderedIds(members) <==> k in members && k != ""
  {
    if members != [] {
      OrderedIdsFacts(members[..|members| - 1]);
      assert members == members[..|members| - 1] + [members[|members| - 1]];
    }
  }

  /** `_registry_member_paths`: the exact set of ingest paths, if every member has one. */
  function MemberPaths(paths: map<string, string>, members: seq<string>): Option<set<string>> {
    var ids := set k | k in members && k != "";
    if ids == {} || exists k | k in ids :: k !in paths || paths[k] == "" then None
    else Some(set k | k in ids && k in paths :: paths[k])
  }

  /** One attempt registered for a member source. */
  function MemberRow(status: IngestStatus, rowCount: nat, errorCode: string): Source {
    Source(Registry, "", status, "reg2es", "2.4.1", rowCount, "", [], "", None, None, errorCode, errorCode)
  }

  function MemberStatus(status: IngestStatus, rowCount: nat): IngestStatus {
    if rowCount > 0 then status else if status == Normalized then Empty else status
  }

  /** `_project_registry_source_state`: the count on the first member, zero on the others. */
  function Project(sources: Sources, ids: seq<string>, status: IngestStatus, rowCount: nat,
                   errorCode: string): Sources
  {
    if ids == [] then sources
    else
      var n := |ids| - 1;
      Register(Project(sources, ids[..n], status, rowCount, errorCode), ids[n],
               MemberRow(MemberStatus(status, rowCount), if n == 0 then rowCount else 0, errorCode))
  }

  function CountOf(sources: Sources, id: string): nat {
    if id in sources then sources[id].rowCount else 0
  }

  lemma {:induction false} ProjectOthers(sources: Sources, ids: seq<string>, status: IngestStatus, rowCount: nat,
                                         errorCode: string, k: string)
    requires k !in ids
    ensures k in Project(sources, ids, status, rowCount, errorCode) <==> k in sources
    ensures k in sources ==> Project(sources, ids, status, rowCount, errorCode)[k] == sources[k]
  {
    if ids != [] {
      assert ids == ids[..|ids| - 1] + [ids[|ids| - 1]];
      ProjectOthers(sources, ids[..|ids| - 1], status, rowCount, errorCode, k);
    }
  }

  /** A usable outcome puts the whole count on the first member and zero on every other. */
  lemma {:induction false} ProjectUsable(sources: Sources, ids: seq<string>, status: IngestStatus, rowCount: nat,
                                         errorCode: string, i: nat)
    requires !Broken(status) && i < |ids| && forall a, b | 0 <= a < b < |ids| :: ids[a] != ids[b]
    ensures CountOf(Project(sources, ids, status, rowCount, errorCode), ids[i]) == if i == 0 then rowCount else 0
  {
    var n := |ids| - 1;
    if i < n { ProjectUsable(sources, ids[..n], status, rowCount, errorCode, i); }
  }

  /** A broken outcome changes no count. */
  lemma {:induction false} ProjectBroken(sources: Sources, ids: seq<string>, status: IngestStatus, errorCode: string,
                                         k: string)
    requires Broken(status)
    ensures CountOf(Project(sources, ids, status, 0, errorCode), k) == CountOf(sources, k)
  {
    if ids != [] { ProjectBroken(sources, ids[..|ids| - 1], status, errorCode, k); }
  }

  /** The state every listed member is left with: that of its dataset, but empty for a normalized dataset
      without rows. */
  lemma {:induction false} ProjectStatus(sources: Sources, ids: seq<string>, status: IngestStatus, rowCount: nat,
                                         errorCode: string, k: string)
    requires k in ids && (status == Normalized || rowCount == 0)
    ensures var t := Project(sources, ids, status, rowCount, errorCode);
            && k in t && t[k].family == Registry && t[k].parser == "reg2es" && t[k].errorCode == errorCode
            && t[k].status == if status == Normalized && rowCount == 0 then Empty else status
  {
    var n := |ids| - 1;
    if k != ids[n] {
      assert ids == ids[..n] + [ids[n]];
      ProjectStatus(sources, ids[..n], status, rowCount, errorCode, k);
    }
  }

  // ---------------------------------------------------------------- derived rows

  /** All derived rows of these datasets deleted. */
  function WithoutRows(s: Reg, ds: set<string>): Reg {
    s.(caseTimeline := map e | e in s.caseTimeline && !(e.RegistryEntry? && e.id in s.timeline && e.id.dataset in ds) ::
                         s.caseTimeline[e],
       timeline := map i | i in s.timeline && i.dataset !in ds :: s.timeline[i],
       artifacts := map i | i in s.artifacts && i.dataset !in ds :: s.artifacts[i])
  }

  function Insert(s: Reg, d: string, ordinal: nat, r: RawRecord): Reg {
    var id := ArtifactId(d, ordinal, r.content);
    s.(artifacts := s.artifacts[id := r],
       timeline := if r.timestamp.Some? then s.timeline[id := r.timestamp.value] else s.timeline)
  }

  function InsertAll(s: Reg, d: string, records: seq<RawRecord>): (t: Reg)
    ensures t.datasets == s.datasets && t.sources == s.sources && t.caseTimeline == s.caseTimeline
  {
    if records == [] then s
    else Insert(InsertAll(s, d, records[..|records| - 1]), d, |records| - 1, records[|records| - 1])
  }

  function EntriesOf(s: Reg, d: string): map<CaseEntry, int> {
    map e | e in (set i | i in s.timeline && i.dataset == d :: RegistryEntry(i)) :: s.timeline[e.id]
  }

  /** The dataset's registry timeline copied into the case timeline. */
  function FeedTimeline(s: Reg, d: string): Reg {
    s.(caseTimeline := s.caseTimeline + EntriesOf(s, d))
  }

  /** The rows of a dataset rebuilt from its raw records. */
  function Rebuilt(s: Reg, d: string, records: seq<RawRecord>): (t: Reg)
    ensures t.datasets == s.datasets && t.sources == s.sources
  {
    FeedTimeline(InsertAll(WithoutRows(s, {d}), d, records), d)
  }

  function Rows(s: Reg, d: string): set<ArtifactId> {
    set i | i in s.artifacts && i.dataset == d
  }

  // ---------------------------------------------------------------- lineage

  predicate Candidate(s: Reg, d: string, k: string) {
    k in s.datasets && k != d && s.datasets[k].parser == "reg2es" && s.datasets[k].status == Normalized
  }

  /** The normalized datasets the dataset replaces: those of its identity, or, without one, those
      without identity that were ingested from exactly its paths. */
  function Replaced(s: Reg, paths: map<string, string>, d: string): set<string>
    requires d in s.datasets
  {
    var row := s.datasets[d];
    if row.identity != "" then
      set k | k in s.datasets && Candidate(s, d, k) && s.datasets[k].identity == row.identity
    else
      var current := MemberPaths(paths, row.members);
      if current.None? then {}
      else set k | k in s.datasets && Candidate(s, d, k) && TextScan.Strip(s.datasets[k].identity) == ""
                   && MemberPaths(paths, s.datasets[k].members) == current
  }

  function Dropped(s: Reg, gone: set<string>): Reg {
    var t := WithoutRows(s, gone);
    t.(datasets := s.datasets - gone)
  }

  // ---------------------------------------------------------------- one dataset

  function MarkNormalized(s: Reg, d: string, n: nat): Reg
    requires d in s.datasets
  {
    var row := s.datasets[d];
    s.(datasets := s.datasets[d := row.(status := Normalized, rowCount := n, errorCode := "")],
       sources := Project(s.sources, OrderedIds(row.members), Normalized, n, ""))
  }

  function MarkBroken(s: Reg, d: string, status: IngestStatus, code: string): Reg
    requires d in s.datasets
  {
    var row := s.datasets[d];
    s.(datasets := s.datasets[d := row.(status := status, errorCode := code)],
       sources := Project(s.sources, OrderedIds(row.members), status, 0, code))
  }

  function Succeed(s: Reg, paths: map<string, string>, d: string, records: seq<RawRecord>): Reg
    requires d in s.datasets
  {
    var t := MarkNormalized(Rebuilt(s, d, records), d, |records|);
    Dropped(t, Replaced(t, paths, d))
  }

  function Normalize(s: Reg, paths: map<string, string>, d: string, o: Outcome): Reg
    requires d in s.datasets
  {
    match o
    case Success(records) => Succeed(s, paths, d, records)
    case RawMissing => MarkBroken(s, d, Failed, "raw_missing")
    case Malformed => MarkBroken(s, d, Partial, "raw_malformed")
    case Crashed => MarkBroken(s, d, Failed, "normalize_error")
  }

  // ---------------------------------------------------------------- what one dataset's step keeps

  /** Raw input that cannot be used leaves every derived row, every other dataset, and every count
      exactly as they were. */
  lemma BrokenTouchesNothing(s: Reg, paths: map<string, string>, d: string, o: Outcome)
    requires d in s.datasets && !o.Success?
    ensures var t := Normalize(s, paths, d, o);
            && t.artifacts == s.artifacts && t.timeline == s.timeline && t.caseTimeline == s.caseTimeline
            && t.datasets - {d} == s.datasets - {d} && d in t.datasets && Broken(t.datasets[d].status)
            && t.datasets[d].(status := s.datasets[d].status, errorCode := s.datasets[d].errorCode) == s.datasets[d]
            && forall k :: CountOf(t.sources, k) == CountOf(s.sources, k)
  {
    var t := Normalize(s, paths, d, o);
    forall k ensures CountOf(t.sources, k) == CountOf(s.sources, k) {
      ProjectBroken(s.sources, OrderedIds(s.datasets[d].members), t.datasets[d].status, t.datasets[d].errorCode, k);
    }
  }

  /** The first member that is not blank. */
  predicate FirstMember(members: seq<string>, k: string) {
    exists i | 0 <= i < |members| :: members[i] == k != "" && forall j | 0 <= j < i :: members[j] == ""
  }

  lemma {:induction false} FirstIsOrdered(members: seq<string>, k: string)
    ensures FirstMember(members, k) <==> OrderedIds(members) != [] && OrderedIds(members)[0] == k
  {
    if members == [] {
    } else {
      var n := |members| - 1;
      var front := members[..n];
      FirstIsOrdered(front, k);
      OrderedIdsFacts(front);
      hide FirstMember;
      if OrderedIds(front) == [] {
        forall j | 0 <= j < n ensures members[j] == "" { assert front[j] in front; }
      } else {
        var m := OrderedIds(front)[0];
        assert m in OrderedIds(front);
        var j :| 0 <= j < n && front[j] == m;
        assert members[j] != "";
      }
      OneMoreMember(members, k);
    }
  }

  lemma OneMoreMember(members: seq<string>, k: string)
    requires members != []
    ensures var n := |members| - 1;
            FirstMember(members, k) <==> FirstMember(members[..n], k)
                                         || (members[n] == k != "" && forall j | 0 <= j < n :: members[j] == "")
  {
    var n := |members| - 1;
    if FirstMember(members[..n], k) {
      var i :| 0 <= i < n && members[..n][i] == k != "" && forall j | 0 <= j < i :: members[..n][j] == "";
      assert members[i] == k && forall j | 0 <= j < i :: members[j] == members[..n][j];
    }
    if FirstMember(members, k) {
      var i :| 0 <= i < |members| && members[i] == k != "" && forall j | 0 <= j < i :: members[j] == "";
      if i < n { assert members[..n][i] == k && forall j | 0 <= j < i :: members[..n][j] == members[j]; }
    }
  }

  /** What a dataset's turn leaves of the sources of its members: the state that its raw file gave it, and
      as counts all its records on the first member, or the counts there were if the file was of no use.
      Other sources stay. */
  lemma MembersAfter(s: Reg, paths: map<string, string>, d: string, o: Outcome, k: string)
    requires d in s.datasets
    ensures var t, members := Normalize(s, paths, d, o).sources, s.datasets[d].members;
            if k in members && k != "" then
              && k in t && t[k].family == Registry
              && (match o
                  case Success(records) =>
                    t[k].status == (if records == [] then Empty else Normalized) && t[k].errorCode == ""
                    && t[k].rowCount == if FirstMember(members, k) then |records| else 0
                  case RawMissing => t[k].status == Failed && t[k].errorCode == "raw_missing"
                  case Malformed => t[k].status == Partial && t[k].errorCode == "raw_malformed"
                  case Crashed => t[k].status == Failed && t[k].errorCode == "normalize_error")
              && (!o.Success? ==> t[k].rowCount == if k in s.sources then s.sources[k].rowCount else 0)
            else (k in t <==> k in s.sources) && (k in t ==> t[k] == s.sources[k])
  {
    hide Project, Succeed, OrderedIds, FirstMember, MemberRow;
    var ids := OrderedIds(s.datasets[d].members);
    OrderedIdsFacts(s.datasets[d].members);
    FirstIsOrdered(s.datasets[d].members, k);
    match o
    case Success(records) =>
      SuccessMeans(s, paths, d, records);
      ProjectedOn(s.sources, ids, Normalized, |records|, "", k);
      if i :| 0 <= i < |ids| && ids[i] == k { ProjectUsable(s.sources, ids, Normalized, |records|, "", i); }
    case RawMissing => ProjectedOn(s.sources, ids, Failed, 0, "raw_missing", k);
    case Malformed => ProjectedOn(s.sources, ids, Partial, 0, "raw_malformed", k);
    case Crashed => ProjectedOn(s.sources, ids, Failed, 0, "normalize_error", k);
  }

  lemma ProjectedOn(sources: Sources, ids: seq<string>, status: IngestStatus, rowCount: nat, code: string, k: string)
    requires status == Normalized || rowCount == 0
    ensures var t := Project(sources, ids, status, rowCount, code);
            if k in ids then
              && k in t && t[k].family == Registry && t[k].errorCode == code
              && t[k].status == (if status == Normalized && rowCount == 0 then Empty else status)
              && (Broken(status) ==> CountOf(t, k) == CountOf(sources, k))
            else (k in t <==> k in sources) && (k in t ==> t[k] == sources[k])
  {
    hide Project;
    if k in ids {
      ProjectStatus(sources, ids, status, rowCount, code, k);
      if Broken(status) { ProjectBroken(sources, ids, status, code, k); }
    } else {
      ProjectOthers(sources, ids, status, rowCount, code, k);
    }
  }

  /** One artifact per record, numbered in order. */
  function RecordRows(d: string, records: seq<RawRecord>): map<ArtifactId, RawRecord> {
    if records == [] then map[]
    else
      var n := |records| - 1;
      RecordRows(d, records[..n])[ArtifactId(d, n, records[n].content) := records[n]]
  }

  lemma {:induction false} RecordRowsCount(d: string, records: seq<RawRecord>)
    ensures |RecordRows(d, records)| == |records|
    ensures forall i | i in RecordRows(d, records) :: i.dataset == d && i.ordinal < |records|
  {
    if records != [] {
      var n := |records| - 1;
      RecordRowsCount(d, records[..n]);
      assert ArtifactId(d, n, records[n].content) !in RecordRows(d, records[..n]);
    }
  }

  lemma {:induction false} RecordRowsAt(d: string, records: seq<RawRecord>, n: nat)
    requires n < |records|
    ensures var i := ArtifactId(d, n, records[n].content);
            i in RecordRows(d, records) && RecordRows(d, records)[i] == records[n]
  {
    if n < |records| - 1 {
      RecordRowsAt(d, records[..|records| - 1], n);
    }
  }

  lemma {:induction false} InsertAllRows(s: Reg, d: string, records: seq<RawRecord>)
    ensures InsertAll(s, d, records).artifacts == s.artifacts + RecordRows(d, records)
  {
    if records != [] { InsertAllRows(s, d, records[..|records| - 1]); }
  }

  lemma InsertedRows(s: Reg, d: string, records: seq<RawRecord>)
    requires Rows(s, d) == {}
    ensures Rows(InsertAll(s, d, records), d) == RecordRows(d, records).Keys
  {
    InsertAllRows(s, d, records);
    RecordRowsCount(d, records);
    forall i ensures i in Rows(InsertAll(s, d, records), d) <==> i in RecordRows(d, records) {
      assert i in s.artifacts && i.dataset == d ==> i in Rows(s, d);
    }
  }

  lemma {:induction false} InsertedOthers(s: Reg, d: string, records: seq<RawRecord>, k: string)
    requires k != d
    ensures Rows(InsertAll(s, d, records), k) == Rows(s, k)
  {
    if records != [] {
      var n := |records| - 1;
      InsertedOthers(s, d, records[..n], k);
      assert Rows(Insert(InsertAll(s, d, records[..n]), d, n, records[n]), k) == Rows(InsertAll(s, d, records[..n]), k);
    }
  }

  lemma RebuiltRows(s: Reg, d: string, records: seq<RawRecord>)
    ensures var t := Rebuilt(s, d, records);
            Rows(t, d) == RecordRows(d, records).Keys && forall k | k != d :: Rows(t, k) == Rows(s, k)
  {
    var w := WithoutRows(s, {d});
    InsertedRows(w, d, records);
    forall k | k != d ensures Rows(Rebuilt(s, d, records), k) == Rows(s, k) {
      InsertedOthers(w, d, records, k);
      assert Rows(w, k) == Rows(s, k);
    }
  }

  /** What a success leaves of the datasets: it is normalized with as many rows as records, those it
      replaces are gone, and every other dataset is as it was. */
  lemma SuccessMeans(s: Reg, paths: map<string, string>, d: string, records: seq<RawRecord>)
    requires d in s.datasets
    ensures var t := Succeed(s, paths, d, records);
            && t.datasets
                == s.datasets[d := s.datasets[d].(status := Normalized, rowCount := |records|, errorCode := "")]
                             - Replaced(s, paths, d)
            && t.sources == Project(s.sources, OrderedIds(s.datasets[d].members), Normalized, |records|, "")
  {
    var u := MarkNormalized(Rebuilt(s, d, records), d, |records|);
    MarkedParts(Rebuilt(s, d, records), d, |records|);
    SameReplaced(s, u, paths, d);
    DroppedParts(u, Replaced(s, paths, d));
  }

  lemma MarkedParts(s: Reg, d: string, n: nat)
    requires d in s.datasets
    ensures var u := MarkNormalized(s, d, n);
            && u.datasets == s.datasets[d := s.datasets[d].(status := Normalized, rowCount := n, errorCode := "")]
            && u.sources == Project(s.sources, OrderedIds(s.datasets[d].members), Normalized, n, "")
  {}

  lemma DroppedParts(s: Reg, gone: set<string>)
    ensures Dropped(s, gone).datasets == s.datasets - gone && Dropped(s, gone).sources == s.sources
  {}

  /** What it leaves of the rows: exactly its records as its own, none of the replaced datasets, and
      those of every other dataset as they were. */
  lemma SuccessRows(s: Reg, paths: map<string, string>, d: string, records: seq<RawRecord>, k: string)
    requires d in s.datasets
    ensures Rows(Succeed(s, paths, d, records), k)
         == if k == d then RecordRows(d, records).Keys else if k in Replaced(s, paths, d) then {} else Rows(s, k)
  {
    SucceedDrops(s, paths, d, records);
    DroppedRows(MarkNormalized(Rebuilt(s, d, records), d, |records|), Replaced(s, paths, d), k);
    MarkedRows(s, d, records, k);
  }

  lemma SucceedDrops(s: Reg, paths: map<string, string>, d: string, records: seq<RawRecord>)
    requires d in s.datasets
    ensures Succeed(s, paths, d, records)
         == Dropped(MarkNormalized(Rebuilt(s, d, records), d, |records|), Replaced(s, paths, d))
    ensures d !in Replaced(s, paths, d)
  {
    SameReplaced(s, MarkNormalized(Rebuilt(s, d, records), d, |records|), paths, d);
  }

  lemma MarkedRows(s: Reg, d: string, records: seq<RawRecord>, k: string)
    requires d in s.datasets
    ensures Rows(MarkNormalized(Rebuilt(s, d, records), d, |records|), k)
         == if k == d then RecordRows(d, records).Keys else Rows(s, k)
  {
    RebuiltRows(s, d, records);
    assert Rows(MarkNormalized(Rebuilt(s, d, records), d, |records|), k) == Rows(Rebuilt(s, d, records), k);
  }

  lemma DroppedRows(s: Reg, gone: set<string>, k: string)
    ensures Rows(Dropped(s, gone), k) == if k in gone then {} else Rows(s, k)
  {}

  lemma SameReplaced(s: Reg, u: Reg, paths: map<string, string>, d: string)
    requires d in s.datasets && u.datasets.Keys == s.datasets.Keys
    requires forall k | k in s.datasets && k != d :: u.datasets[k] == s.datasets[k]
    requires u.datasets[d].identity == s.datasets[d].identity && u.datasets[d].members == s.datasets[d].members
    ensures Replaced(u, paths, d) == Replaced(s, paths, d)
  {}
}
