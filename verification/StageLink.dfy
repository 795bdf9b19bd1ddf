/** The source pass on the case tables and the stage of the receipt protocol are the same stage: what
    the protocol sees of the tables changes as `PipelineStages` says. */
module StageLink {
  import opened Common
  import EvidenceSources
  import opened Invalidation
  import opened SourceReplacement
  import opened SourceConvergence
  import R = StageReceipts
  import P = PipelineStages

  function StateName(s: EvidenceSources.IngestStatus): string {
    match s
    case Parsed => "parsed"
    case Normalized => "normalized"
    case Empty => "empty"
    case Failed => "failed"
    case Partial => "partial"
  }

  /** A source row as the receipts see it; a row of another family than the file's counts for nothing. */
  function StatusOf(files: Files, k: string, s: EvidenceSources.Source): R.Status {
    R.Status(if k in files && files[k].kind != s.family then "" else StateName(s.status), s.rowCount)
  }

  function Statuses(t: Tables): map<string, R.Status> {
    map k | k in t.sources :: StatusOf(t.files, k, t.sources[k])
  }

  /** `_sources_normalized` in terms of the tables: every ingested file has a ready row of its family. */
  lemma NormalizedMeans(t: Tables)
    ensures R.SourcesNormalized(t.files.Keys, Statuses(t))
       <==> forall k | k in t.files ::
              k in t.sources && t.sources[k].family == t.files[k].kind && EvidenceSources.Ready(t.sources[k].status)
  {
    forall k | k in t.files
      ensures k in Statuses(t) && R.Ready(Statuses(t)[k])
         <==> k in t.sources && t.sources[k].family == t.files[k].kind && EvidenceSources.Ready(t.sources[k].status)
    {}
  }

  /** The protocol's rows and attempts describe the tables: as many rows of each source, and raw output
      that is there and empty where it is. */
  predicate Describes(t: Tables, w: Surroundings, k: string, rows: R.Evidence, attempt: string -> P.Attempt)
    requires k in t.files
  {
    var f := t.files[k].kind;
    && |R.RowsOf(rows, k)| == RowCount(t.evidence.Get(f), k)
    && ((attempt(k).Rewrite? && attempt(k).empty) <==> w.raw(f, k) == RawEmpty)
  }

  lemma CountedAgrees(t: Tables, w: Surroundings, k: string, rows: R.Evidence, attempt: string -> P.Attempt)
    requires k in t.files && Describes(t, w, k, rows, attempt)
    ensures P.Counted(rows, k, attempt(k)) == StatusOf(t.files, k, Measurement(t, w, k))
  {}

  /** The update of the source states is the protocol's, file by file. */
  lemma MeasuringAgrees(t: Tables, w: Surroundings, keys: set<string>, rows: R.Evidence, attempt: string -> P.Attempt)
    requires forall k | k in MeasuredKeys(t.files, w, keys) :: Describes(t, w, k, rows, attempt)
    ensures Statuses(UpdateStatus(t, w, keys))
         == P.Measured(Statuses(t), MeasuredKeys(t.files, w, keys), P.Counting(rows, attempt))
  {
    var now := P.Counting(rows, attempt);
    var after := P.Measured(Statuses(t), MeasuredKeys(t.files, w, keys), now);
    UpdatedKeys(t, w, keys);
    forall k | k in after ensures StatusOf(t.files, k, UpdateStatus(t, w, keys).sources[k]) == after[k] {
      StatusAfter(t, w, keys, k);
      if k in MeasuredKeys(t.files, w, keys) { CountedAgrees(t, w, k, rows, attempt); }
    }
    SameStatuses(UpdateStatus(t, w, keys), after);
  }

  lemma UpdatedKeys(t: Tables, w: Surroundings, keys: set<string>)
    ensures UpdateStatus(t, w, keys).sources.Keys == t.sources.Keys + MeasuredKeys(t.files, w, keys)
    ensures UpdateStatus(t, w, keys).files == t.files
  {}

  lemma StatusAfter(t: Tables, w: Surroundings, keys: set<string>, k: string)
    requires k in t.sources.Keys + MeasuredKeys(t.files, w, keys)
    ensures k in UpdateStatus(t, w, keys).sources
    ensures StatusOf(t.files, k, UpdateStatus(t, w, keys).sources[k])
         == if k in MeasuredKeys(t.files, w, keys)
            then R.Merged(Statuses(t), k, StatusOf(t.files, k, Measurement(t, w, k))) else Statuses(t)[k]
  {
    if k in MeasuredKeys(t.files, w, keys) { OneMeasured(t, w, k, StatusOf(t.files, k, Measurement(t, w, k))); }
  }

  lemma SameStatuses(u: Tables, m: map<string, R.Status>)
    requires u.sources.Keys == m.Keys && forall k | k in m :: StatusOf(u.files, k, u.sources[k]) == m[k]
    ensures Statuses(u) == m
  {}

  lemma OneMeasured(t: Tables, w: Surroundings, k: string, s: R.Status)
    requires k in t.files && s == StatusOf(t.files, k, Measurement(t, w, k))
    ensures StatusOf(t.files, k, EvidenceSources.AfterAttempt(t.sources, k, Measurement(t, w, k)))
         == R.Merged(Statuses(t), k, s)
  {}

  /** The sources a whole retirement takes. */
  function Gone(t: Tables, order: seq<Family>, r: Replacements): set<string> {
    if order == [] then {}
    else
      var f, before := order[|order| - 1], RetireAll(t, order[..|order| - 1], r);
      Gone(t, order[..|order| - 1], r) + if f in r && f != Registry then EligibleSources(before, f, r[f]) else {}
  }

  /** So is the retirement: files and source rows of the sources it takes are gone, and no others. */
  lemma {:induction false} RetirementAgrees(t: Tables, order: seq<Family>, r: Replacements)
    ensures var v, gone := RetireAll(t, order, r), Gone(t, order, r);
            v.files == t.files - gone && v.sources == t.sources - gone && Statuses(v) == Statuses(t) - gone
  {
    RetiredTables(t, order, r);
    StatusesWithout(t, RetireAll(t, order, r), Gone(t, order, r));
  }

  lemma {:induction false} RetiredTables(t: Tables, order: seq<Family>, r: Replacements)
    ensures var v, gone := RetireAll(t, order, r), Gone(t, order, r);
            v.files == t.files - gone && v.sources == t.sources - gone
  {
    if order == [] {
    } else {
      var n := |order| - 1;
      var f, before, gone := order[n], RetireAll(t, order[..n], r), Gone(t, order[..n], r);
      RetiredTables(t, order[..n], r);
      if f in r {
        RetiredParts(before, f, r[f]);
        var more := if f == Registry then {} else EligibleSources(before, f, r[f]);
        LessAndLess(t.files, gone, more);
        LessAndLess(t.sources, gone, more);
      }
    }
  }

  lemma LessAndLess<V>(m: map<string, V>, a: set<string>, b: set<string>)
    ensures (m - a) - b == m - (a + b)
  {}

  lemma StatusesWithout(t: Tables, v: Tables, gone: set<string>)
    requires v.files == t.files - gone && v.sources == t.sources - gone
    ensures Statuses(v) == Statuses(t) - gone
  {}
}
