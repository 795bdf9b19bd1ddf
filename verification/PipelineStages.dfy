/** What the evidence stages of a pipeline run make of the stored case (`pipeline.py`, `ingest.py`,
    `normalize.py`), whatever parsers, adapters and registry files do. */
module PipelineStages {
  import opened Common
  import opened StageReceipts

  // ---------------------------------------------------------------- ingest

  const PARSED := Status("parsed", 0)

  /** The source row after a registration that counted no rows. */
  function Registered(statuses: map<string, Status>, f: string, state: string): Status {
    Merged(statuses, f, Status(state, 0))
  }

  datatype Parsing = Records | Raises | NoRecords

  /** What an input directory holds: single files, and registry datasets that are parsed as one. */
  datatype Found = OneFile(sha: string, parsing: Parsing) | Dataset(members: seq<string>, raises: bool)

  /** The case and the keys added so far. */
  datatype Ingest = Ingest(d: Durable, added: set<string>)

  function Add(i: Ingest, f: string): Ingest {
    Ingest(i.d.(files := i.d.files + {f}, statuses := i.d.statuses[f := PARSED], raw := true), i.added + {f})
  }

  function Spoil(i: Ingest, f: string, state: string): Ingest {
    i.(d := i.d.(statuses := i.d.statuses[f := Registered(i.d.statuses, f, state)]))
  }

  function Member(i: Ingest, f: string, raises: bool): Ingest {
    if raises then Spoil(i, f, "failed") else Add(i, f)
  }

  function Members(i: Ingest, members: seq<string>, raises: bool): Ingest {
    if members == [] then i
    else Member(Members(i, members[..|members| - 1], raises), members[|members| - 1], raises)
  }

  /** A known file is skipped, a dataset only if all its members are known. */
  function IngestOne(i: Ingest, g: Found): Ingest {
    match g
    case OneFile(sha, parsing) =>
      if sha in i.d.files then i
      else if parsing.Records? then Add(i, sha)
      else Spoil(i, sha, if parsing.Raises? then "failed" else "empty")
    case Dataset(members, raises) =>
      if forall f | f in members :: f in i.d.files then i else Members(i, members, raises)
  }

  function IngestedBy(d: Durable, found: seq<Found>): Ingest {
    if found == [] then Ingest(d, {}) else IngestOne(IngestedBy(d, found[..|found| - 1]), found[|found| - 1])
  }

  /** The files a parser leaves raw records of. */
  function Readable(g: Found): set<string> {
    match g
    case OneFile(sha, parsing) => if parsing.Records? then {sha} else {}
    case Dataset(members, raises) => if raises then {} else set f | f in members
  }

  function ReadableIn(found: seq<Found>): set<string> {
    if found == [] then {} else ReadableIn(found[..|found| - 1]) + Readable(found[|found| - 1])
  }

  predicate Unready(d: Durable, f: string) { f in d.statuses && !Ready(d.statuses[f]) }

  predicate SameStatus(d: Durable, e: Durable, f: string) {
    if f in d.statuses then f in e.statuses && e.statuses[f] == d.statuses[f] else f !in e.statuses
  }

  /** The keys are files that are not ready, every new file is one of them, and any other file is as
      it was or has lost its readiness; nothing but files, their states and raw output changes. */
  predicate Kept(d: Durable, i: Ingest) {
    && i.d == d.(files := i.d.files, statuses := i.d.statuses, raw := d.raw || i.added != {})
    && d.files <= i.d.files && i.d.files - d.files <= i.added <= i.d.files
    && (forall f | f in i.added :: Unready(i.d, f))
    && (forall f | f in i.d.files - i.added :: SameStatus(d, i.d, f) || Unready(i.d, f))
  }

  lemma AddKeeps(d: Durable, i: Ingest, f: string)
    requires Kept(d, i)
    ensures Kept(d, Add(i, f))
  {
    var j := Add(i, f);
    assert f in j.added;
    forall g | g in j.d.files - j.added ensures SameStatus(d, j.d, g) || Unready(j.d, g) {
      assert g in i.d.files - i.added && SameStatus(i.d, j.d, g);
    }
    forall g | g in j.added ensures Unready(j.d, g) { assert g != f ==> Unready(i.d, g); }
  }

  lemma SpoilKeeps(d: Durable, i: Ingest, f: string, state: string)
    requires Kept(d, i) && (f in i.d.files ==> Broken(state))
    ensures Kept(d, Spoil(i, f, state))
  {
    var j := Spoil(i, f, state);
    forall g | g in j.d.files - j.added ensures SameStatus(d, j.d, g) || Unready(j.d, g) {
      assert g in i.d.files - i.added && (g != f ==> SameStatus(i.d, j.d, g));
    }
    forall g | g in j.added ensures Unready(j.d, g) { assert g != f ==> Unready(i.d, g); }
  }

  lemma {:induction false} MembersKeep(d: Durable, i: Ingest, members: seq<string>, raises: bool)
    requires Kept(d, i)
    ensures Kept(d, Members(i, members, raises))
    ensures Members(i, members, raises).d.files == i.d.files + if raises then {} else set f | f in members
  {
    if members == [] {
    } else {
      var n := |members| - 1;
      MembersKeep(d, i, members[..n], raises);
      assert members == members[..n] + [members[n]];
      var j := Members(i, members[..n], raises);
      if raises { SpoilKeeps(d, j, members[n], "failed"); } else { AddKeeps(d, j, members[n]); }
    }
  }

  lemma IngestOneKeeps(d: Durable, i: Ingest, g: Found)
    requires Kept(d, i)
    ensures Kept(d, IngestOne(i, g)) && IngestOne(i, g).d.files == i.d.files + Readable(g)
  {
    match g
    case OneFile(sha, parsing) =>
      if sha !in i.d.files {
        if parsing.Records? { AddKeeps(d, i, sha); }
        else { SpoilKeeps(d, i, sha, if parsing.Raises? then "failed" else "empty"); }
      }
    case Dataset(members, raises) => MembersKeep(d, i, members, raises);
  }

  /** Ingesting adds exactly the files whose parser leaves raw records, in whatever order and grouping
      they are found: a file that raises or yields nothing is no ingested file. Every new file is a
      key of the normalization, and no key and no file that was touched is ready before it. */
  lemma {:induction false} IngestMeans(d: Durable, found: seq<Found>)
    ensures IngestedBy(d, found).d.files == d.files + ReadableIn(found)
    ensures Kept(d, IngestedBy(d, found))
  {
    if found == [] {
    } else {
      IngestMeans(d, found[..|found| - 1]);
      IngestOneKeeps(d, IngestedBy(d, found[..|found| - 1]), found[|found| - 1]);
    }
  }

  // ---------------------------------------------------------------- exactly what is ingested again

  /** A found item is worked on, although some of its files may be known: a single file that is not, or
      a dataset of which some member is not. */
  predicate WorkedOn(g: Found, known: set<string>) {
    match g
    case OneFile(sha, _) => sha !in known
    case Dataset(members, _) => exists m | m in members :: m !in known
  }

  /** Working on it writes the state of this file. */
  predicate Touches(g: Found, known: set<string>, f: string) {
    WorkedOn(g, known) && match g case OneFile(sha, _) => f == sha case Dataset(members, _) => f in members
  }

  lemma {:induction false} MembersTouch(i: Ingest, members: seq<string>, raises: bool, f: string)
    ensures f in Members(i, members, raises).added <==> f in i.added || (!raises && f in members)
    ensures f !in members ==> SameStatus(i.d, Members(i, members, raises).d, f)
  {
    if members == [] {
    } else {
      var n := |members| - 1;
      MembersTouch(i, members[..n], raises, f);
      assert members == members[..n] + [members[n]];
    }
  }

  lemma IngestOneTouches(i: Ingest, g: Found, f: string)
    ensures f in IngestOne(i, g).added <==> f in i.added || (Touches(g, i.d.files, f) && f in Readable(g))
    ensures !Touches(g, i.d.files, f) ==> SameStatus(i.d, IngestOne(i, g).d, f)
  {
    if g.Dataset? {
      MembersTouch(i, g.members, g.raises, f);
      assert WorkedOn(g, i.d.files) <==> !forall m | m in g.members :: m in i.d.files;
    }
  }

  /** The item at this place is worked on and writes the state of this file: known are the files that were
      there before and those that earlier items left records of. */
  predicate TouchedAt(d: Durable, found: seq<Found>, n: nat, f: string)
    requires n < |found|
  { Touches(found[n], d.files + ReadableIn(found[..n]), f) }

  lemma TouchedBefore(d: Durable, found: seq<Found>, m: nat, f: string)
    requires m < |found|
    ensures forall n | 0 <= n < m :: TouchedAt(d, found[..m], n, f) <==> TouchedAt(d, found, n, f)
  {
    assert forall n | 0 <= n < m :: found[..m][..n] == found[..n];
  }

  /** Exactly the keys of the normalization: what an item leaves raw records of that was worked on. A file
      that no such item lists keeps its state. */
  lemma {:induction false} AddedIff(d: Durable, found: seq<Found>, f: string)
    ensures f in IngestedBy(d, found).added <==>
            exists n | 0 <= n < |found| :: TouchedAt(d, found, n, f) && f in Readable(found[n])
    ensures (forall n | 0 <= n < |found| :: !TouchedAt(d, found, n, f)) ==> SameStatus(d, IngestedBy(d, found).d, f)
  {
    hide IngestOne, TouchedAt, Readable;
    if found == [] {
    } else {
      var m := |found| - 1;
      AddedIff(d, found[..m], f);
      TouchedBefore(d, found, m, f);
      AddedOneMore(d, found, f);
    }
  }

  lemma AddedOneMore(d: Durable, found: seq<Found>, f: string)
    requires found != []
    ensures var m := |found| - 1;
            var i, j := IngestedBy(d, found[..m]), IngestedBy(d, found);
            && (f in j.added <==> f in i.added || (TouchedAt(d, found, m, f) && f in Readable(found[m])))
            && (!TouchedAt(d, found, m, f) ==> SameStatus(i.d, j.d, f))
  {
    var m := |found| - 1;
    IngestMeans(d, found[..m]);
    IngestOneTouches(IngestedBy(d, found[..m]), found[m], f);
  }

  lemma {:induction false} MembersWrite(i: Ingest, members: seq<string>, raises: bool, f: string)
    requires f in members
    ensures var before, now := i.d.statuses, Members(i, members, raises).d.statuses;
            f in now && now[f] ==
            if raises then Status("failed", if f in before then before[f].rowCount else 0) else Status("parsed", 0)
  {
    var n := |members| - 1;
    assert members == members[..n] + [members[n]];
    if f in members[..n] {
      MembersWrite(i, members[..n], raises, f);
    } else {
      MembersTouch(i, members[..n], raises, f);
    }
  }

  /** The state an item leaves on a file it touches: parsed, without a row yet, where its parser left
      records; failed, with the rows counted before, where it raised; and empty, where it found none. */
  lemma IngestOneWrites(i: Ingest, g: Found, f: string)
    requires Touches(g, i.d.files, f)
    ensures var before, now := i.d.statuses, IngestOne(i, g).d.statuses;
            f in now && now[f] ==
            if f in Readable(g) then Status("parsed", 0)
            else if g == OneFile(f, NoRecords) then Status("empty", 0)
            else Status("failed", if f in before then before[f].rowCount else 0)
  {
    if g.Dataset? { MembersWrite(i, g.members, g.raises, f); }
  }

  /** The last item that touches a file decides its state. */
  lemma {:induction false} LastTouchDecides(d: Durable, found: seq<Found>, n: nat, f: string)
    requires n < |found| && TouchedAt(d, found, n, f)
    requires forall m | n < m < |found| :: !TouchedAt(d, found, m, f)
    ensures var now := IngestedBy(d, found).d.statuses;
            f in now && now[f].state ==
            if f in Readable(found[n]) then "parsed"
            else if found[n] == OneFile(f, NoRecords) then "empty"
            else "failed"
    decreases |found|
  {
    hide IngestOne, TouchedAt, Readable;
    var m := |found| - 1;
    IngestMeans(d, found[..m]);
    if n == m {
      LastTouch(d, found, f);
    } else {
      TouchedBefore(d, found, m, f);
      assert found[..m][n] == found[n];
      LastTouchDecides(d, found[..m], n, f);
      AddedOneMore(d, found, f);
    }
  }

  lemma LastTouch(d: Durable, found: seq<Found>, f: string)
    requires found != [] && TouchedAt(d, found, |found| - 1, f)
    ensures var now := IngestedBy(d, found).d.statuses;
            var g := found[|found| - 1];
            f in now && now[f].state ==
            if f in Readable(g) then "parsed" else if g == OneFile(f, NoRecords) then "empty" else "failed"
  {
    IngestMeans(d, found[..|found| - 1]);
    IngestOneWrites(IngestedBy(d, found[..|found| - 1]), found[|found| - 1], f);
  }

  /** Of single files: the keys are exactly the readable ones that were not known, and every known file
      keeps its state. */
  lemma SingleFilesAdded(d: Durable, found: seq<Found>, f: string)
    requires forall g | g in found :: g.OneFile?
    ensures f in IngestedBy(d, found).added <==> f !in d.files && OneFile(f, Records) in found
    ensures f in d.files ==> SameStatus(d, IngestedBy(d, found).d, f)
  {
    AddedIff(d, found, f);
    if f !in d.files && OneFile(f, Records) in found {
      var n := FirstOf(found, OneFile(f, Records));
      ReadableBefore(found[..n], f);
      assert TouchedAt(d, found, n, f) && f in Readable(found[n]);
    }
  }

  /** The first place of an item. */
  lemma {:induction false} FirstOf(found: seq<Found>, g: Found) returns (n: nat)
    requires g in found
    ensures n < |found| && found[n] == g && g !in found[..n]
  {
    n := 0;
    while found[n] != g
      invariant 0 <= n < |found| && g !in found[..n]
      invariant g in found[n..]
      decreases |found| - n
    {
      assert found[n..] == [found[n]] + found[n + 1..];
      assert found[..n + 1] == found[..n] + [found[n]];
      n := n + 1;
    }
  }

  lemma {:induction false} ReadableBefore(found: seq<Found>, f: string)
    requires (forall g | g in found :: g.OneFile?) && OneFile(f, Records) !in found
    ensures f !in ReadableIn(found)
  {
    if found == [] {
    } else {
      var n := |found| - 1;
      assert found[n] in found && forall g | g in found[..n] :: g in found;
      ReadableBefore(found[..n], f);
    }
  }

  lemma {:induction false} NothingNewIngested(d: Durable, found: seq<Found>)
    requires forall g | g in found :: !WorkedOn(g, d.files)
    ensures IngestedBy(d, found) == Ingest(d, {})
  {
    if found == [] {
    } else {
      var n := |found| - 1;
      assert found[n] in found && forall g | g in found[..n] :: g in found;
      NothingNewIngested(d, found[..n]);
    }
  }

  lemma MembersMore(i: Ingest, members: seq<string>, n: nat, raises: bool)
    requires n < |members|
    ensures Members(i, members[..n + 1], raises) == Member(Members(i, members[..n], raises), members[n], raises)
  {
    assert members[..n + 1][..n] == members[..n];
  }

  lemma IngestedMore(d: Durable, found: seq<Found>, n: nat)
    requires n < |found|
    ensures IngestedBy(d, found[..n + 1]) == IngestOne(IngestedBy(d, found[..n]), found[n])
  {
    assert found[..n + 1][..n] == found[..n];
  }

  // ---------------------------------------------------------------- normalize

  /** What the adapters do to one file: rewrite its rows from its raw output, which may be there and
      empty; keep its rows, because its raw output is missing; rebuild a registry file and project its
      state; or refuse a missing or malformed registry file, whose rows stay too. Of a file-based source
      the update of its state is made or raises. */
  datatype Attempt =
    | Rewrite(empty: bool, measured: bool)
    | Keep(measured: bool)
    | Project(status: Status)
    | Refuse(malformed: bool)

  predicate FileBased(a: Attempt) { a.Rewrite? || a.Keep? }

  predicate Rewrites(a: Attempt) { a.Rewrite? || a.Project? }

  /** How a normalization goes on: to its end; to an adapter that raises after some files were worked
      on and whose sources are then marked; or to a stop that is requested before the analysis. */
  datatype Outcome = Finished | Raised(done: set<string>, failed: set<string>) | Stopped

  /** The world a normalization meets; `siblings` are further members of selected registry datasets. */
  datatype World = World(attempt: string -> Attempt, siblings: set<string>, outcome: Outcome)

  function Adapt(norm: Normalizer, d: Durable, parser: Parser, f: string, a: Attempt): Durable {
    match a
    case Rewrite(_, _) => d.(rows := Put(d.rows, f, norm(parser, f)))
    case Keep(_) => d
    case Project(status) => d.(rows := Put(d.rows, f, norm(parser, f)), statuses := d.statuses[f := status])
    case Refuse(malformed) =>
      d.(statuses := d.statuses[f := Registered(d.statuses, f, if malformed then "partial" else "failed")])
  }

  function AdaptedRows(norm: Normalizer, rows: Evidence, parser: Parser, done: set<string>,
                       attempt: string -> Attempt): Evidence
  {
    map f | f in rows.Keys + done && (if f in done && Rewrites(attempt(f)) then norm(parser, f) != [] else f in rows) ::
      if f in done && Rewrites(attempt(f)) then norm(parser, f) else rows[f]
  }

  function AdaptedStatus(statuses: map<string, Status>, f: string, a: Attempt): Status
    requires FileBased(a) ==> f in statuses
  {
    match a
    case Rewrite(_, _) => statuses[f]
    case Keep(_) => statuses[f]
    case Project(status) => status
    case Refuse(malformed) => Registered(statuses, f, if malformed then "partial" else "failed")
  }

  function AdaptedStatuses(statuses: map<string, Status>, done: set<string>, attempt: string -> Attempt)
    : map<string, Status>
  {
    map f | f in statuses.Keys + done && (f in statuses || !FileBased(attempt(f))) ::
      if f in done then AdaptedStatus(statuses, f, attempt(f)) else statuses[f]
  }

  /** The case after the adapters worked on these files, in any order. */
  function Adapted(norm: Normalizer, d: Durable, parser: Parser, done: set<string>, attempt: string -> Attempt)
    : Durable
  {
    d.(rows := AdaptedRows(norm, d.rows, parser, done, attempt),
       statuses := AdaptedStatuses(d.statuses, done, attempt))
  }

  lemma AdaptedNone(norm: Normalizer, d: Durable, parser: Parser, attempt: string -> Attempt)
    ensures Adapted(norm, d, parser, {}, attempt) == d
  {}

  lemma AdaptedRowsMore(norm: Normalizer, rows: Evidence, parser: Parser, done: set<string>,
                        attempt: string -> Attempt, f: string)
    ensures var e := AdaptedRows(norm, rows, parser, done, attempt);
            AdaptedRows(norm, rows, parser, done + {f}, attempt) ==
            if Rewrites(attempt(f)) then Put(e, f, norm(parser, f)) else e
  {}

  lemma AdaptedStatusesMore(statuses: map<string, Status>, done: set<string>, attempt: string -> Attempt, f: string)
    requires f !in done
    ensures var e := AdaptedStatuses(statuses, done, attempt);
            AdaptedStatuses(statuses, done + {f}, attempt) ==
            if FileBased(attempt(f)) then e else e[f := AdaptedStatus(e, f, attempt(f))]
  {
    assert f in AdaptedStatuses(statuses, done, attempt) <==> f in statuses;
  }

  lemma AdaptedMore(norm: Normalizer, d: Durable, parser: Parser, done: set<string>, attempt: string -> Attempt,
                    f: string)
    requires f !in done
    ensures Adapted(norm, d, parser, done + {f}, attempt)
         == Adapt(norm, Adapted(norm, d, parser, done, attempt), parser, f, attempt(f))
  {
    AdaptedRowsMore(norm, d.rows, parser, done, attempt, f);
    AdaptedStatusesMore(d.statuses, done, attempt, f);
  }

  /** The sources of a raising adapter, marked failed. */
  function Marked(statuses: map<string, Status>, failed: set<string>): map<string, Status> {
    map f | f in statuses.Keys + failed :: if f in failed then Registered(statuses, f, "failed") else statuses[f]
  }

  lemma MarkedNone(statuses: map<string, Status>)
    ensures Marked(statuses, {}) == statuses
  {}

  lemma MarkedMore(statuses: map<string, Status>, failed: set<string>, f: string)
    requires f !in failed
    ensures Marked(statuses, failed + {f})
         == Marked(statuses, failed)[f := Registered(Marked(statuses, failed), f, "failed")]
  {}

  /** The state a file-based source is registered with: whatever rows are there make it normalized. */
  function Counted(rows: Evidence, f: string, a: Attempt): Status {
    var n := |RowsOf(rows, f)|;
    if n > 0 then Status("normalized", n)
    else if a.Rewrite? && a.empty then Status("empty", 0)
    else Status("failed", 0)
  }

  function Counting(rows: Evidence, attempt: string -> Attempt): string -> Status {
    f => Counted(rows, f, attempt(f))
  }

  /** Source states after these files were registered with these states. */
  function Measured(statuses: map<string, Status>, files: set<string>, now: string -> Status): map<string, Status> {
    map f | f in statuses.Keys + files :: if f in files then Merged(statuses, f, now(f)) else statuses[f]
  }

  lemma MeasuredNone(statuses: map<string, Status>, now: string -> Status)
    ensures Measured(statuses, {}, now) == statuses
  {}

  lemma MeasuredMore(statuses: map<string, Status>, files: set<string>, now: string -> Status, f: string)
    requires f !in files
    ensures var before := Measured(statuses, files, now);
            Measured(statuses, files + {f}, now) == before[f := Merged(before, f, now(f))]
  {}

  /** The file-based keys whose state is updated. */
  function ToMeasure(keys: set<string>, attempt: string -> Attempt): set<string> {
    set f | f in keys && FileBased(attempt(f)) && attempt(f).measured
  }

  /** What the update of a state finds is what the protocol lets it write. */
  lemma CountedMeasures(norm: Normalizer, s: State, d: Durable, done: set<string>, attempt: string -> Attempt,
                        f: string)
    requires s.d == Adapted(norm, d, s.parser, done, attempt) && f in done && FileBased(attempt(f))
    ensures Measures(norm, s, f, Counted(s.d.rows, f, attempt(f)))
  {}

  function Rebuilt(norm: Normalizer, d: Durable, parser: Parser, keys: set<string>, w: World): Durable {
    var e := Adapted(norm, d, parser, keys + w.siblings * d.files, w.attempt);
    e.(statuses := Measured(e.statuses, ToMeasure(keys, w.attempt), Counting(e.rows, w.attempt)))
  }

  /** What adapters leave that raised. */
  function CutShort(norm: Normalizer, d: Durable, parser: Parser, w: World): Durable
    requires w.outcome.Raised?
  {
    var e := Adapted(norm, d, parser, w.outcome.done * d.files, w.attempt);
    e.(statuses := Marked(e.statuses, w.outcome.failed * d.files))
  }

  function Retired(d: Durable, gone: set<string>): Durable {
    d.(files := d.files - gone, statuses := d.statuses - gone, rows := d.rows - gone)
  }

  lemma RetiredNone(d: Durable)
    ensures Retired(d, {}) == d
  {}

  lemma RetiredMore(d: Durable, gone: set<string>, f: string)
    ensures Retired(d, gone + {f}) == Retired(Retired(d, gone), {f})
  {}

  function NormalizedBy(norm: Normalizer, d: Durable, parser: Parser, keys: set<string>,
                        gone: set<string>, w: World): Durable
  {
    if w.outcome.Raised? then CutShort(norm, d, parser, w)
    else
      var e := Retired(Rebuilt(norm, d, parser, keys, w), gone);
      e.(normalized := Completed(RevisionOf(e, parser)), foreign := false)
  }

  // ---------------------------------------------------------------- a whole run

  function AnalyzedBy(d: Durable, rules: Rules): Durable {
    d.(findings := Result(d.rows, rules), analyzed := Analyzed(rules))
  }

  function Arrived(d: Durable, input: Option<seq<Found>>): Ingest {
    if input.Some? then IngestedBy(d, input.value) else Ingest(d, {})
  }

  /** Normalize unless the receipt is current; without an input directory only what was ingested. */
  predicate Normalizes(d: Durable, parser: Parser, rerun: bool, input: Option<seq<Found>>) {
    var i := Arrived(d, input);
    (input.Some? || d.raw) && (rerun || i.added != {} || !NormalizeCurrent(i.d, parser))
  }

  /** A normalization that was decided on, and the analysis it forces. */
  function NormalizedAndAnalyzed(norm: Normalizer, d: Durable, parser: Parser, rules: Rules,
                                 keys: set<string>, gone: set<string>, w: World): Durable
  {
    var e := NormalizedBy(norm, d, parser, keys, gone, w);
    if w.outcome.Finished? then AnalyzedBy(e, rules) else e
  }

  /** What follows an ingest. */
  function AfterArrival(norm: Normalizer, i: Ingest, parser: Parser, rules: Rules, normalizes: bool,
                        gone: set<string>, w: World): Durable
  {
    if normalizes then
      NormalizedAndAnalyzed(norm, i.d.(foreign := StartsForeign(i.d, parser)), parser, rules,
                            KeysFor(i.d, parser, i.added), gone * i.d.files, w)
    else if i.d.analyzed != Analyzed(rules) then AnalyzedBy(i.d, rules)
    else i.d
  }

  /** A whole run: ingest what is new, normalize unless the receipt is current, retire, analyze unless
      nothing was normalized and the rules are those of the last analysis. */
  function StagesOf(norm: Normalizer, d: Durable, parser: Parser, rules: Rules, rerun: bool,
                    input: Option<seq<Found>>, gone: set<string>, w: World): Durable
  {
    AfterArrival(norm, Arrived(d, input), parser, rules, Normalizes(d, parser, rerun, input), gone, w)
  }

  /** A run that finds nothing new under a current receipt changes nothing at all: every file it finds is
      known, no rerun is asked for, and the rules are those of the last analysis. */
  lemma NothingNewChangesNothing(norm: Normalizer, d: Durable, parser: Parser, rules: Rules, found: seq<Found>,
                                 gone: set<string>, w: World)
    requires NormalizeCurrent(d, parser) && d.analyzed == Analyzed(rules)
    requires forall g | g in found :: !WorkedOn(g, d.files)
    ensures !Normalizes(d, parser, false, Some(found))
    ensures StagesOf(norm, d, parser, rules, false, Some(found), gone, w) == d
  {
    NothingNewIngested(d, found);
  }

  /** A normalization that came to its end, in terms of what it met: exactly the retired sources are
      gone; every key whose raw output was there has the rows that output yields, and one without has
      the rows it had; nothing else changed but further members of selected datasets; and the receipt is
      of the sources as they are now. */
  lemma NormalizedMeans(norm: Normalizer, d: Durable, parser: Parser, keys: set<string>, gone: set<string>, w: World,
                        f: string)
    requires !w.outcome.Raised? && keys <= d.files
    ensures var e := NormalizedBy(norm, d, parser, keys, gone, w);
            && e.files == d.files - gone && e.normalized == Completed(Revision(parser, e.statuses, e.files))
            && e.analyzed == d.analyzed && e.findings == d.findings
            && (f in gone ==> f !in e.rows && f !in e.statuses)
            && (f !in gone ==> RowsOf(e.rows, f) == if f in keys + w.siblings * d.files && Rewrites(w.attempt(f))
                                                    then norm(parser, f) else RowsOf(d.rows, f))
            && (f !in gone && f !in keys + w.siblings * d.files ==> SameStatus(d, e, f))
  {}

  /** And the states it leaves on its keys: a counted file-based source has as many rows as are there; a
      registry file the projected state, or failed or partial with the count it had. */
  lemma NormalizedStatus(norm: Normalizer, d: Durable, parser: Parser, keys: set<string>, gone: set<string>, w: World,
                         f: string)
    requires !w.outcome.Raised? && keys <= d.files && f in keys - gone
    ensures var e := NormalizedBy(norm, d, parser, keys, gone, w);
            var n := |RowsOf(e.rows, f)|;
            match w.attempt(f)
            case Rewrite(empty, true) =>
              f in e.statuses && (n > 0 ==> e.statuses[f] == Status("normalized", n))
              && (n == 0 ==> if empty then e.statuses[f] == Status("empty", 0) else e.statuses[f].state == "failed")
            case Keep(true) =>
              f in e.statuses && (n > 0 ==> e.statuses[f] == Status("normalized", n))
              && (n == 0 ==> e.statuses[f].state == "failed")
            case Project(status) => f in e.statuses && e.statuses[f] == status
            case Refuse(malformed) =>
              f in e.statuses && e.statuses[f].state == (if malformed then "partial" else "failed")
              && e.statuses[f].rowCount == if f in d.statuses then d.statuses[f].rowCount else 0
            case _ => SameStatus(d, e, f)
  {}

  /** What an adapter leaves that raised: the receipt and the analysis as they were, the rows of the files
      it had come to, and its sources failed. */
  lemma CutShortMeans(norm: Normalizer, d: Durable, parser: Parser, w: World, f: string)
    requires w.outcome.Raised?
    ensures var e := CutShort(norm, d, parser, w);
            && e == d.(rows := e.rows, statuses := e.statuses)
            && RowsOf(e.rows, f) == (if f in w.outcome.done * d.files && Rewrites(w.attempt(f)) then norm(parser, f)
                                     else RowsOf(d.rows, f))
            && (f in w.outcome.failed * d.files ==> f in e.statuses && e.statuses[f].state == "failed")
            && (f !in w.outcome.failed + w.outcome.done ==> SameStatus(d, e, f))
  {}

  /** Exactly when a run normalizes: it finds raw output, and is told to; or a file it found left new
      records; or the receipt is not of this parser and of the sources as they are now, all of them
      normalized or empty. */
  lemma NormalizesIff(d: Durable, parser: Parser, rerun: bool, input: Option<seq<Found>>)
    ensures var e := if input.Some? then IngestedBy(d, input.value).d else d;
            Normalizes(d, parser, rerun, input) <==>
            && (input == None ==> d.raw)
            && (rerun
                || (input.Some? && exists n, f | 0 <= n < |input.value| ::
                      TouchedAt(d, input.value, n, f) && f in Readable(input.value[n]))
                || e.normalized != Completed(Revision(parser, e.statuses, e.files))
                || exists f | f in e.files :: f !in e.statuses || e.statuses[f].state !in {"normalized", "empty"})
  {
    hide IngestedBy, TouchedAt, Readable;
    if input.Some? { SomethingAdded(d, input.value); }
  }

  lemma SomethingAdded(d: Durable, found: seq<Found>)
    ensures IngestedBy(d, found).added != {} <==>
            exists n, f | 0 <= n < |found| :: TouchedAt(d, found, n, f) && f in Readable(found[n])
  {
    hide IngestedBy, TouchedAt, Readable;
    if f :| f in IngestedBy(d, found).added {
      AddedIff(d, found, f);
      var n :| 0 <= n < |found| && TouchedAt(d, found, n, f) && f in Readable(found[n]);
    }
    if n, f :| 0 <= n < |found| && TouchedAt(d, found, n, f) && f in Readable(found[n]) {
      AddedIff(d, found, f);
    }
  }

  /** What a run comes to after its ingest. One that does not normalize leaves rows, sources and receipt;
      one that comes to its end leaves findings of the rules it was given, on the rows it leaves, or
      those of an earlier analysis by the same rules that nothing followed. One that is cut short leaves
      the analysis alone, and the receipt too if an adapter raised. */
  lemma RunMeans(norm: Normalizer, d: Durable, parser: Parser, rules: Rules, rerun: bool, input: Option<seq<Found>>,
                 gone: set<string>, w: World)
    ensures var i := if input.Some? then IngestedBy(d, input.value).d else d;
            var e := StagesOf(norm, d, parser, rules, rerun, input, gone, w);
            var normalizes := Normalizes(d, parser, rerun, input);
            && (!normalizes ==> e == i.(analyzed := e.analyzed, findings := e.findings))
            && (!normalizes || w.outcome.Finished? ==> e.analyzed == Analyzed(rules))
            && (normalizes && w.outcome.Finished? ==> e.findings == Result(e.rows, rules))
            && (!normalizes ==>
                  e.findings == if i.analyzed == Analyzed(rules) then i.findings else Result(i.rows, rules))
            && (normalizes && !w.outcome.Finished? ==> e.analyzed == i.analyzed && e.findings == i.findings)
            && (normalizes && !w.outcome.Raised? ==>
                  e.normalized == Completed(Revision(parser, e.statuses, e.files)) && e.files == i.files - gone)
            && (normalizes && w.outcome.Raised? ==> e.normalized == i.normalized && e.files == i.files)
  {}

  /** And to which rows: those of the keys, that is of the new files, if there are some and the receipt
      was of the same parser, and otherwise of all, are what their raw output yields if that was there. */
  lemma RunRewrites(norm: Normalizer, d: Durable, parser: Parser, rules: Rules, rerun: bool, input: Option<seq<Found>>,
                    gone: set<string>, w: World, f: string)
    requires Normalizes(d, parser, rerun, input) && !w.outcome.Raised?
    ensures var i := if input.Some? then IngestedBy(d, input.value) else Ingest(d, {});
            var e := StagesOf(norm, d, parser, rules, rerun, input, gone, w);
            var onlyNew := i.added != {} && d.normalized.Completed? && d.normalized.revision.parser == parser;
            f in i.d.files ==>
              if f in gone then f !in e.rows
              else if w.attempt(f) in {Keep(true), Keep(false), Refuse(true), Refuse(false)}
                      || (onlyNew && f !in i.added && f !in w.siblings) then RowsOf(e.rows, f) == RowsOf(d.rows, f)
              else RowsOf(e.rows, f) == norm(parser, f)
  {
    hide IngestedBy, Normalizes, NormalizedBy;
    if input.Some? { IngestMeans(d, input.value); }
    var i := Arrived(d, input);
    assert Kept(d, i);
    var k, s := KeysFor(i.d, parser, i.added), i.d.(foreign := StartsForeign(i.d, parser));
    NormalizedMeans(norm, s, parser, k, gone * i.d.files, w, f);
    assert StagesOf(norm, d, parser, rules, rerun, input, gone, w).rows
        == NormalizedBy(norm, s, parser, k, gone * i.d.files, w).rows;
  }

  /** The next run over the same input changes nothing, after a run that came to its end with every
      source ready and left every file it found ingested. */
  lemma SecondRunChangesNothing(norm: Normalizer, d: Durable, parser: Parser, rules: Rules, rerun: bool,
                                found: seq<Found>, gone: set<string>, w: World, next: set<string>, v: World)
    requires w.outcome.Finished?
    requires var e := StagesOf(norm, d, parser, rules, rerun, Some(found), gone, w);
             SourcesNormalized(e.files, e.statuses) && forall g | g in found :: !WorkedOn(g, e.files)
    ensures var e := StagesOf(norm, d, parser, rules, rerun, Some(found), gone, w);
            StagesOf(norm, e, parser, rules, false, Some(found), next, v) == e
  {
    var e := StagesOf(norm, d, parser, rules, rerun, Some(found), gone, w);
    assert NormalizeCurrent(e, parser) && e.analyzed == Analyzed(rules);
    NothingNewChangesNothing(norm, e, parser, rules, found, next, v);
  }

  /** A normalization whose adapter raised is not forgotten: if the source of some ingested file was
      marked, the next run normalizes again, whatever it finds and whichever parser it has. */
  lemma RaiseIsRepeated(norm: Normalizer, d: Durable, parser: Parser, w: World, f: string,
                        next: Parser, rerun: bool, input: Option<seq<Found>>)
    requires w.outcome.Raised? && f in w.outcome.failed && f in d.files && d.raw
    ensures Normalizes(CutShort(norm, d, parser, w), next, rerun, input)
  {
    var e := CutShort(norm, d, parser, w);
    assert Unready(e, f);
    var i := Arrived(e, input);
    if input.Some? { IngestMeans(e, input.value); }
    assert Kept(e, i);
    if i.added == {} { assert f in i.d.files - i.added && Unready(i.d, f); }
  }
}
