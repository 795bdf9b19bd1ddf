/** The `evidence_sources` row and its upsert (`db/evidence_sources.py`). */
module EvidenceSources {
  import opened Common

  datatype IngestStatus = Parsed | Normalized | Empty | Failed | Partial

  /** Text columns use "" for "not given"; times are optional. */
  datatype Source = Source(family: Family, displayPath: string, status: IngestStatus, parser: string,
                           parserVersion: string, rowCount: nat, channel: string, hosts: seq<string>,
                           volumeId: string, minTime: Option<int>, maxTime: Option<int>,
                           errorCode: string, errorSummary: string)

  type Sources = map<string, Source>

  /** An attempt that produced nothing usable. */
  predicate Broken(s: IngestStatus) { s == Failed || s == Partial }

  /** A source whose rows may be relied on. */
  predicate Ready(s: IngestStatus) { s == Normalized || s == Empty }

  function Given(new_: string, old_: string): string { if new_ == "" then old_ else new_ }

  /** What a conflicting insert leaves in the row. */
  function Merged(was: Source, now: Source): Source {
    Source(now.family,
           Given(now.displayPath, was.displayPath),
           now.status,
           Given(now.parser, was.parser),
           Given(now.parserVersion, was.parserVersion),
           if Broken(now.status) && was.rowCount > 0 then was.rowCount else now.rowCount,
           if Broken(now.status) then was.channel else now.channel,
           if Broken(now.status) then was.hosts else now.hosts,
           Given(now.volumeId, was.volumeId),
           if Broken(now.status) then was.minTime else now.minTime,
           if Broken(now.status) then was.maxTime else now.maxTime,
           now.errorCode,
           now.errorSummary)
  }

  /** A source row after one more attempt on it. */
  function AfterAttempt(sources: Sources, id: string, attempt: Source): Source {
    if id in sources then Merged(sources[id], attempt) else attempt
  }

  function Register(sources: Sources, id: string, attempt: Source): Sources {
    sources[id := AfterAttempt(sources, id, attempt)]
  }

  // ---------------------------------------------------------------- attempts on one source

  /** What an attempt measures. */
  datatype Measures = Measures(rowCount: nat, channel: string, hosts: seq<string>, minTime: Option<int>,
                               maxTime: Option<int>)

  function MeasuresOf(s: Source): Measures {
    Measures(s.rowCount, s.channel, s.hosts, s.minTime, s.maxTime)
  }

  /** A broken attempt leaves no trace in the measurements, whatever paths, parsers and volumes it names,
      except exactly when it counts rows on a row that counts none. */
  lemma BrokenAttemptLeavesNoTrace(was: Source, broken: Source)
    requires broken.status == Failed || broken.status == Partial
    ensures MeasuresOf(Merged(was, broken)) == MeasuresOf(was) <==> was.rowCount > 0 || broken.rowCount == 0
  {}

  /** A usable attempt replaces every measurement, and all of the row up to the columns it names nothing
      for: two rows agree after it exactly when they agreed there. */
  lemma UsableAttemptDecides(a: Source, b: Source, usable: Source)
    requires usable.status != Failed && usable.status != Partial
    ensures MeasuresOf(Merged(a, usable)) == MeasuresOf(usable)
    ensures Merged(a, usable) == Merged(b, usable) <==>
            && (usable.displayPath != "" || a.displayPath == b.displayPath)
            && (usable.parser != "" || a.parser == b.parser)
            && (usable.parserVersion != "" || a.parserVersion == b.parserVersion)
            && (usable.volumeId != "" || a.volumeId == b.volumeId)
  {}

  function MergedAll(was: Source, attempts: seq<Source>): Source {
    if attempts == [] then was else Merged(MergedAll(was, attempts[..|attempts| - 1]), attempts[|attempts| - 1])
  }

  /** The last attempt that was not broken, or the row there was. */
  function LastUsable(was: Source, attempts: seq<Source>): Source {
    if attempts == [] then was
    else if !Broken(attempts[|attempts| - 1].status) then attempts[|attempts| - 1]
    else LastUsable(was, attempts[..|attempts| - 1])
  }

  /** Over any attempts, of which the broken ones count no rows, the measurements are always those of
      the last usable attempt, while status and error are the last attempt's. */
  lemma {:induction false} LastUsableMeasures(was: Source, attempts: seq<Source>)
    requires forall a | a in attempts && Broken(a.status) :: a.rowCount == 0
    ensures MeasuresOf(MergedAll(was, attempts)) == MeasuresOf(LastUsable(was, attempts))
    ensures attempts != [] ==>
              var last := attempts[|attempts| - 1];
              var row := MergedAll(was, attempts);
              row.status == last.status && row.errorCode == last.errorCode && row.errorSummary == last.errorSummary
  {
    if attempts == [] {
    } else {
      var last := attempts[|attempts| - 1];
      assert last in attempts;
      LastUsableMeasures(was, attempts[..|attempts| - 1]);
      var before := MergedAll(was, attempts[..|attempts| - 1]);
      if Broken(last.status) {
        BrokenAttemptLeavesNoTrace(before, last);
      } else {
        UsableAttemptDecides(before, before, last);
      }
    }
  }

  // ---------------------------------------------------------------- attempts on several sources

  /** One attempt on each of several sources. */
  function RegisterAll(sources: Sources, attempts: Sources): Sources {
    map k | k in sources.Keys + attempts.Keys ::
      if k in attempts then AfterAttempt(sources, k, attempts[k]) else sources[k]
  }

  function Only(attempts: Sources, ids: set<string>): Sources {
    map k | k in attempts && k in ids :: attempts[k]
  }

  lemma RegisterMore(sources: Sources, attempts: Sources, done: set<string>, id: string)
    requires id in attempts && id !in done
    ensures RegisterAll(sources, Only(attempts, done + {id}))
         == Register(RegisterAll(sources, Only(attempts, done)), id, attempts[id])
  {
    assert Only(attempts, done + {id}) == Only(attempts, done)[id := attempts[id]];
    var before := RegisterAll(sources, Only(attempts, done));
    assert AfterAttempt(before, id, attempts[id]) == AfterAttempt(sources, id, attempts[id]);
  }

  lemma RegisterNone(sources: Sources, attempts: Sources)
    ensures RegisterAll(sources, Only(attempts, {})) == sources
    ensures Only(attempts, attempts.Keys) == attempts
  {}

  /** Some of the attempts were registered, the others not yet. */
  predicate PartlyRegistered(was: Sources, attempts: Sources, sources: Sources) {
    && was.Keys <= sources.Keys <= was.Keys + attempts.Keys
    && forall k | k in sources ::
         (k in was && sources[k] == was[k]) || (k in attempts && sources[k] == AfterAttempt(was, k, attempts[k]))
  }

  lemma OnlyIsPart(was: Sources, attempts: Sources, done: set<string>)
    ensures PartlyRegistered(was, attempts, RegisterAll(was, Only(attempts, done)))
  {}
}
